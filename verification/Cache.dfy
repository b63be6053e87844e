/**
 The whole engine on values: one recency list per shard, a byte budget and an eviction cursor.

 `Step` is what one operation of hkv-engine/src/memory.rs does to that state and answers. Engine.dfy
 proves that the code computes it; PlainStore.dfy and Lru.dfy prove what it means over whole runs.
 */
module Cache {
  import opened Base
  import opened Masking
  import opened Recency

  // `mask` is the shard count minus one; `maxBytes == USIZE_MAX` stands for "no limit".
  datatype Config = Config(mask: nat, maxBytes: nat, hash: Bytes -> nat)

  datatype Cache = Cache(shards: seq<Recent>, cursor: nat)

  predicate Unlimited(cfg: Config) {
    cfg.maxBytes == USIZE_MAX
  }

  ghost predicate WellFormed(cfg: Config, c: Cache) {
    && |c.shards| == cfg.mask + 1
    && (exists k :: 0 <= k <= 63 && |c.shards| == Pow2(k))
    && c.cursor < WORD
    && forall i :: 0 <= i < |c.shards| ==> DistinctKeys(c.shards[i])
  }

  function ShardOf(cfg: Config, key: Bytes): (i: nat)
    ensures i <= cfg.mask
  {
    And(cfg.hash(key), cfg.mask)
  }

  function StoredBytes(shards: seq<Recent>): nat {
    SumBy(TotalSize, shards)
  }

  function EntriesIn(l: Recent): nat {
    |l|
  }

  function StoredCount(shards: seq<Recent>): nat {
    SumBy(EntriesIn, shards)
  }

  lemma StoredUpdate(shards: seq<Recent>, i: nat, l: Recent)
    requires i < |shards|
    ensures StoredBytes(shards[i := l]) + TotalSize(shards[i]) == StoredBytes(shards) + TotalSize(l)
    ensures StoredCount(shards[i := l]) + |shards[i]| == StoredCount(shards) + |l|
  {
    SumByUpdate(TotalSize, shards, i, l);
    SumByUpdate(EntriesIn, shards, i, l);
  }

  lemma StoredAtLeast(shards: seq<Recent>, i: nat)
    requires i < |shards|
    ensures TotalSize(shards[i]) <= StoredBytes(shards)
  {
    SumByAtLeast(TotalSize, shards, i);
  }

  lemma AllEmpty(shards: seq<Recent>)
    requires forall i :: 0 <= i < |shards| ==> shards[i] == []
    ensures StoredBytes(shards) == 0 && StoredCount(shards) == 0
  {
    SumByZero(TotalSize, shards);
    SumByZero(EntriesIn, shards);
  }

  // A new engine: every shard empty.
  function Empty(cfg: Config): Cache {
    Cache(seq(cfg.mask + 1, _ => []), 0)
  }

  ghost predicate Startable(cfg: Config) {
    exists k :: 0 <= k <= 63 && cfg.mask + 1 == Pow2(k)
  }

  lemma EmptyWellFormed(cfg: Config)
    requires Startable(cfg)
    ensures WellFormed(cfg, Empty(cfg)) && StoredBytes(Empty(cfg).shards) == 0
  {
    AllEmpty(Empty(cfg).shards);
  }

  // ---------------------------------------------------------------------------------------
  // Eviction.

  // The first non-empty shard a round-robin scan meets.
  function Scan(cfg: Config, shards: seq<Recent>, start: nat, offset: nat): (r: Option<nat>)
    requires |shards| == cfg.mask + 1 && offset <= |shards|
    ensures r.Some? ==> r.value < |shards| && shards[r.value] != []
    decreases |shards| - offset
  {
    if offset == |shards| then None
    else
      var i := Visited(start, offset, cfg.mask);
      if shards[i] != [] then Some(i) else Scan(cfg, shards, start, offset + 1)
  }

  lemma {:induction false} ScanMisses(cfg: Config, shards: seq<Recent>, start: nat, offset: nat, later: nat)
    requires |shards| == cfg.mask + 1 && offset <= later < |shards|
    requires Scan(cfg, shards, start, offset).None?
    ensures shards[Visited(start, later, cfg.mask)] == []
    decreases later - offset
  {
    if offset < later {
      ScanMisses(cfg, shards, start, offset + 1, later);
    }
  }

  // A scan that finds nothing has looked everywhere: with bytes stored it always finds a victim.
  lemma ScanFindsVictim(cfg: Config, c: Cache)
    requires WellFormed(cfg, c) && StoredCount(c.shards) > 0
    ensures Scan(cfg, c.shards, c.cursor, 0).Some?
  {
    if Scan(cfg, c.shards, c.cursor, 0).None? {
      var k :| 0 <= k <= 63 && |c.shards| == Pow2(k);
      forall i | 0 <= i < |c.shards| ensures c.shards[i] == [] {
        var offset := OffsetOf(c.cursor, i, Pow2(k));
        ScanVisitsEachOnce(c.cursor, i, k, 0);
        ScanVisitsEachOnce(c.cursor, i, k, offset);
        ScanMisses(cfg, c.shards, c.cursor, 0, offset);
      }
      AllEmpty(c.shards);
    }
  }

  lemma {:induction false} BytesNeedEntries(shards: seq<Recent>)
    requires StoredBytes(shards) > 0
    ensures StoredCount(shards) > 0
  {
    if shards[0] == [] {
      BytesNeedEntries(shards[1..]);
    }
  }

  predicate OverBudget(cfg: Config, c: Cache) {
    !Unlimited(cfg) && StoredBytes(c.shards) > cfg.maxBytes
  }

  // One round of the eviction loop: the least recently used entry of the victim shard goes.
  function EvictOne(cfg: Config, c: Cache): (r: Cache)
    requires WellFormed(cfg, c) && StoredCount(c.shards) > 0
    ensures WellFormed(cfg, r)
    ensures StoredCount(r.shards) + 1 == StoredCount(c.shards)
  {
    ScanFindsVictim(cfg, c);
    var v := Scan(cfg, c.shards, c.cursor, 0).value;
    StoredUpdate(c.shards, v, c.shards[v][1..]);
    Cache(c.shards[v := c.shards[v][1..]], (c.cursor + 1) % WORD)
  }

  // The loop. Bytes alone would not bound it, since an entry can have size zero.
  function Evict(cfg: Config, c: Cache): (r: Cache)
    requires WellFormed(cfg, c)
    ensures WellFormed(cfg, r) && !OverBudget(cfg, r)
    decreases StoredCount(c.shards)
  {
    if !OverBudget(cfg, c) then c
    else
      BytesNeedEntries(c.shards);
      Evict(cfg, EvictOne(cfg, c))
  }

  // ---------------------------------------------------------------------------------------
  // Operations.

  datatype Op =
    | Get(key: Bytes)
    | Set(key: Bytes, value: Bytes)
    | Delete(key: Bytes)
    | Expire(key: Bytes, ttl: nat)
    | Ttl(key: Bytes)
    | Purge(asOf: nat)

  datatype Answer =
    | Value(value: Option<Bytes>)
    | Done
    | Removed(removed: bool)
    | Expiry(result: ExpireResult)
    | Remaining(status: TtlStatus)
    | Swept(count: nat)

  // What a keyed operation does to the list of its shard.
  function OnShard(l: Recent, op: Op, now: nat): (Recent, Answer)
    requires !op.Purge?
  {
    match op
    case Get(key) => (GetIn(l, key, now).0, Value(GetIn(l, key, now).1))
    case Set(key, value) => (SetIn(l, key, value), Done)
    case Delete(key) => (DeleteIn(l, key, now).0, Removed(DeleteIn(l, key, now).1))
    case Expire(key, ttl) => (ExpireIn(l, key, ttl, now).0, Expiry(ExpireIn(l, key, ttl, now).1))
    case Ttl(key) => (TtlIn(l, key, now).0, Remaining(TtlIn(l, key, now).1))
  }

  lemma OnShardDistinct(l: Recent, op: Op, now: nat)
    requires DistinctKeys(l) && !op.Purge?
    ensures DistinctKeys(OnShard(l, op, now).0)
  {
    WithoutDistinct(l, op.key);
    match op
    case Get(key) =>
      if Live(l, key, now).Some? {
        MovedDistinct(l, Live(l, key, now).value);
      }
    case Set(key, value) => MovedDistinct(l, Entry(key, value, None));
    case Expire(key, ttl) => WithDeadlineDistinct(l, key, now + ttl);
    case _ =>
  }

  function Sweep(shards: seq<Recent>, now: nat): (r: seq<Recent>)
    ensures |r| == |shards|
    ensures forall i :: 0 <= i < |shards| ==> r[i] == Survivors(shards[i], now)
  {
    seq(|shards|, i requires 0 <= i < |shards| => Survivors(shards[i], now))
  }

  function SweptCount(shards: seq<Recent>, now: nat): nat {
    if shards == [] then 0 else ExpiredCount(shards[0], now) + SweptCount(shards[1..], now)
  }

  // The bytes a sweep frees.
  function ExpiredBytes(shards: seq<Recent>, now: nat): nat {
    if shards == [] then 0 else ExpiredSize(shards[0], now) + ExpiredBytes(shards[1..], now)
  }

  lemma {:induction false} SweepFrees(shards: seq<Recent>, now: nat)
    ensures StoredBytes(Sweep(shards, now)) + ExpiredBytes(shards, now) == StoredBytes(shards)
  {
    if shards != [] {
      SweepExact(shards[0], now);
      SweepFrees(shards[1..], now);
      assert Sweep(shards, now)[1..] == Sweep(shards[1..], now);
    }
  }

  lemma {:induction false} SweepRemoves(shards: seq<Recent>, now: nat)
    ensures SweptCount(shards, now) + StoredCount(Sweep(shards, now)) == StoredCount(shards)
  {
    if shards != [] {
      SweepExact(shards[0], now);
      SweepRemoves(shards[1..], now);
      assert Sweep(shards, now)[1..] == Sweep(shards[1..], now);
    }
  }

  function Replace(c: Cache, i: nat, l: Recent): Cache
    requires i < |c.shards|
  {
    Cache(c.shards[i := l], c.cursor)
  }

  // The state after the locked part of a keyed operation, before any eviction.
  function Locked(cfg: Config, c: Cache, op: Op, now: nat): (r: Cache)
    requires WellFormed(cfg, c) && !op.Purge?
    ensures WellFormed(cfg, r)
  {
    var i := ShardOf(cfg, op.key);
    OnShardDistinct(c.shards[i], op, now);
    Replace(c, i, OnShard(c.shards[i], op, now).0)
  }

  function Step(cfg: Config, c: Cache, op: Op, now: nat): (r: (Cache, Answer))
    requires WellFormed(cfg, c)
    ensures WellFormed(cfg, r.0)
  {
    if op.Purge? then
      SweepDistinct(c.shards, op.asOf);
      (Cache(Sweep(c.shards, op.asOf), c.cursor), Swept(SweptCount(c.shards, op.asOf)))
    else
      var c' := Locked(cfg, c, op, now);
      (if op.Set? then Evict(cfg, c') else c', OnShard(c.shards[ShardOf(cfg, op.key)], op, now).1)
  }

  lemma SweepDistinct(shards: seq<Recent>, now: nat)
    requires forall i :: 0 <= i < |shards| ==> DistinctKeys(shards[i])
    ensures forall i :: 0 <= i < |shards| ==> DistinctKeys(Sweep(shards, now)[i])
  {
    forall i | 0 <= i < |shards| ensures DistinctKeys(Sweep(shards, now)[i]) {
      SurvivorsDistinct(shards[i], now);
    }
  }

  // A sweep answers the number of entries it removed: those that had expired, and no others.
  lemma SweepAnswersRemoved(cfg: Config, c: Cache, asOf: nat, now: nat)
    requires WellFormed(cfg, c)
    ensures var (c', a) := Step(cfg, c, Purge(asOf), now);
            && a.Swept? && a.count + StoredCount(c'.shards) == StoredCount(c.shards)
            && |c'.shards| == |c.shards| && c'.cursor == c.cursor
            && forall i, e :: 0 <= i < |c.shards| ==>
                 (e in c'.shards[i] <==> e in c.shards[i] && !Expired(e, asOf))
  {
    SweepRemoves(c.shards, asOf);
    forall i | 0 <= i < |c.shards| ensures forall e ::
        e in Survivors(c.shards[i], asOf) <==> e in c.shards[i] && !Expired(e, asOf)
    {
      SweepExact(c.shards[i], asOf);
    }
  }

  // A keyed operation that does not find its key live removes what is left of it; its bytes are freed.
  lemma AccessDropsExpired(cfg: Config, c: Cache, op: Op, now: nat)
    requires WellFormed(cfg, c) && !op.Purge? && !op.Set?
    requires Live(c.shards[ShardOf(cfg, op.key)], op.key, now).None?
    ensures var i, c' := ShardOf(cfg, op.key), Step(cfg, c, op, now).0;
            && Find(c'.shards[i], op.key).None?
            && StoredBytes(c'.shards) + (match Find(c.shards[i], op.key)
                                         case None => 0
                                         case Some(e) => Size(e)) == StoredBytes(c.shards)
            && forall key :: key != op.key ==> Find(c'.shards[i], key) == Find(c.shards[i], key)
  {
    var i := ShardOf(cfg, op.key);
    var l := c.shards[i];
    StoredUpdate(c.shards, i, Without(l, op.key));
    WithoutSize(l, op.key);
    forall key ensures Find(Without(l, op.key), key) == if key == op.key then None else Find(l, key) {
      FindWithout(l, op.key, key);
    }
  }

  // An operation other than set and sweep replaces one list and nothing else.
  lemma StepIsShard(cfg: Config, c: Cache, op: Op, now: nat)
    requires WellFormed(cfg, c) && !op.Purge? && !op.Set?
    ensures Step(cfg, c, op, now).0 ==
        Replace(c, ShardOf(cfg, op.key), OnShard(c.shards[ShardOf(cfg, op.key)], op, now).0)
    ensures Step(cfg, c, op, now).1 == OnShard(c.shards[ShardOf(cfg, op.key)], op, now).1
  {
  }
}
