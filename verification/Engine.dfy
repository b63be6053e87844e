/**
 The engine itself (`MemoryEngine` in hkv-engine/src/memory.rs) for one caller at a time: shards,
 byte counter and eviction cursor, updated in place. Each operation is proved to be a `Step` of
 Cache.dfy. Interleaved callers are the subject of Accounting.dfy and Linear.dfy.
 */
module Engine {
  import opened Base
  import opened Masking
  import opened Recency
  import opened Cache
  import opened Shard

  lemma PopSize(l: Recent)
    requires l != []
    ensures TotalSize(l[1..]) + Size(l[0]) == TotalSize(l)
  {
  }

  lemma VictimOf(cfg: Config, c: Cache) returns (v: nat)
    requires WellFormed(cfg, c) && StoredBytes(c.shards) > 0
    ensures v < |c.shards| && c.shards[v] != [] && Scan(cfg, c.shards, c.cursor, 0) == Some(v)
    ensures StoredCount(c.shards) > 0
    ensures EvictOne(cfg, c) == Cache(c.shards[v := c.shards[v][1..]], (c.cursor + 1) % WORD)
  {
    BytesNeedEntries(c.shards);
    ScanFindsVictim(cfg, c);
    v := Scan(cfg, c.shards, c.cursor, 0).value;
  }

  // `n - 1` on machine words, for a shard count of at least one.
  lemma LowerWord(n: nat)
    requires 1 <= n <= WORD
    ensures (n + WORD - 1) % WORD == n - 1
  {
  }

  class MemoryEngine {
    const shards: seq<ShardInner>
    const shardMask: nat
    const hash: Bytes -> nat
    const maxBytes: nat
    var usedBytes: nat
    var evictionCursor: nat
    ghost var lists: seq<Recent>

    ghost function Cfg(): Config {
      Config(shardMask, maxBytes, hash)
    }

    ghost function Abs(): Cache
      reads this
    {
      Cache(lists, evictionCursor)
    }

    // Every shard is sound and stands for its list.
    ghost predicate Backed()
      reads this, shards
    {
      && |shards| == |lists|
      && (forall i, j :: 0 <= i < j < |shards| ==> shards[i] != shards[j])
      && forall i :: 0 <= i < |shards| ==> shards[i].Valid() && shards[i].entries == lists[i]
    }

    ghost predicate Valid()
      reads this, shards
    {
      && Backed()
      && WellFormed(Cfg(), Abs())
      && usedBytes == StoredBytes(lists)
    }

    // with_shard_count_and_capacity. A count above 2^63 makes an engine without shards, on which every
    // operation on a key panics when it indexes them.
    constructor (count: nat, maxBytes: nat, hash: Bytes -> nat)
      requires count <= USIZE_MAX
      ensures fresh(shards) && this.maxBytes == maxBytes && this.hash == hash
      ensures count <= HALF_WORD ==> Valid() && Startable(Cfg()) && Abs() == Empty(Cfg())
      ensures count <= HALF_WORD ==> shardMask == NormalizeShardCount(count) - 1
      ensures count > HALF_WORD ==> shards == [] && shardMask == USIZE_MAX
    {
      var n := NormalizeShardCount(count);
      var fleet := MakeShards(n);
      this.shards := fleet;
      this.shardMask := (n + WORD - 1) % WORD;
      this.hash := hash;
      this.maxBytes := maxBytes;
      usedBytes := 0;
      evictionCursor := 0;
      lists := seq(n, _ => []);
      new;
      if n > 0 {
        LowerWord(n);
        EmptyWellFormed(Cfg());
      }
    }

    static method MakeShards(n: nat) returns (fleet: seq<ShardInner>)
      ensures |fleet| == n && fresh(fleet)
      ensures forall i, j :: 0 <= i < j < n ==> fleet[i] != fleet[j]
      ensures forall i :: 0 <= i < n ==> fleet[i].Valid() && fleet[i].entries == []
    {
      fleet := [];
      for k := 0 to n
        invariant |fleet| == k && fresh(fleet)
        invariant forall i, j :: 0 <= i < j < k ==> fleet[i] != fleet[j]
        invariant forall i :: 0 <= i < k ==> fleet[i].Valid() && fleet[i].entries == []
      {
        var shard := new ShardInner();
        fleet := fleet + [shard];
      }
    }

    // Between a shard's critical section and the counter: every list but that of shard `i` is current.
    ghost predicate BackedBut(i: nat)
      reads this, shards
    {
      && i < |shards| == |lists|
      && (forall i, j :: 0 <= i < j < |shards| ==> shards[i] != shards[j])
      && forall j :: 0 <= j < |shards| ==> shards[j].Valid() && (j != i ==> shards[j].entries == lists[j])
    }

    // The counter follows the shard: fetch_sub of what was freed, fetch_add of what was added.
    method Settle(i: nat, freed: nat, added: nat)
      requires BackedBut(i) && usedBytes == StoredBytes(lists)
      requires freed <= TotalSize(lists[i])
      requires TotalSize(shards[i].entries) + freed == TotalSize(lists[i]) + added
      modifies this`usedBytes, this`lists
      ensures Backed() && usedBytes == StoredBytes(lists)
      ensures lists == old(lists)[i := shards[i].entries]
    {
      StoredAtLeast(lists, i);
      StoredUpdate(lists, i, shards[i].entries);
      usedBytes := usedBytes - freed + added;
      lists := lists[i := shards[i].entries];
    }

    method Get(key: Bytes, now: nat) returns (r: Option<Bytes>)
      requires Valid()
      modifies this, shards
      ensures Valid()
      ensures Abs() == Step(Cfg(), old(Abs()), Op.Get(key), now).0
      ensures Value(r) == Step(Cfg(), old(Abs()), Op.Get(key), now).1
    {
      var i := ShardOf(Config(shardMask, maxBytes, hash), key);
      var freed;
      r, freed := shards[i].Get(key, now);
      Settle(i, freed, 0);
      StepIsShard(Cfg(), old(Abs()), Op.Get(key), now);
    }

    method Delete(key: Bytes, now: nat) returns (r: bool)
      requires Valid()
      modifies this, shards
      ensures Valid()
      ensures Abs() == Step(Cfg(), old(Abs()), Op.Delete(key), now).0
      ensures Removed(r) == Step(Cfg(), old(Abs()), Op.Delete(key), now).1
    {
      var i := ShardOf(Config(shardMask, maxBytes, hash), key);
      var freed;
      r, freed := shards[i].Delete(key, now);
      Settle(i, freed, 0);
      StepIsShard(Cfg(), old(Abs()), Op.Delete(key), now);
    }

    method Expire(key: Bytes, ttl: nat, now: nat) returns (r: ExpireResult)
      requires Valid()
      modifies this, shards
      ensures Valid()
      ensures Abs() == Step(Cfg(), old(Abs()), Op.Expire(key, ttl), now).0
      ensures Expiry(r) == Step(Cfg(), old(Abs()), Op.Expire(key, ttl), now).1
    {
      var i := ShardOf(Config(shardMask, maxBytes, hash), key);
      var freed;
      r, freed := shards[i].Expire(key, ttl, now);
      Settle(i, freed, 0);
      StepIsShard(Cfg(), old(Abs()), Op.Expire(key, ttl), now);
    }

    method Ttl(key: Bytes, now: nat) returns (r: TtlStatus)
      requires Valid()
      modifies this, shards
      ensures Valid()
      ensures Abs() == Step(Cfg(), old(Abs()), Op.Ttl(key), now).0
      ensures Remaining(r) == Step(Cfg(), old(Abs()), Op.Ttl(key), now).1
    {
      var i := ShardOf(Config(shardMask, maxBytes, hash), key);
      var freed;
      r, freed := shards[i].Ttl(key, now);
      Settle(i, freed, 0);
      StepIsShard(Cfg(), old(Abs()), Op.Ttl(key), now);
    }

    // The locked part of set: insert or overwrite, and charge the difference.
    method Store(key: Bytes, value: Bytes, now: nat)
      requires Valid()
      modifies this, shards
      ensures Valid()
      ensures Abs() == Locked(Cfg(), old(Abs()), Op.Set(key, value), now)
    {
      ghost var next := Locked(Cfg(), Abs(), Op.Set(key, value), now);
      var i := ShardOf(Config(shardMask, maxBytes, hash), key);
      var freed, added := shards[i].Set(key, value, now);
      Settle(i, freed, added);
      assert Abs() == next;
    }

    // set: afterwards the engine is within its budget.
    method Set(key: Bytes, value: Bytes, now: nat)
      requires Valid()
      modifies this, shards
      ensures Valid()
      ensures Abs() == Step(Cfg(), old(Abs()), Op.Set(key, value), now).0
      ensures maxBytes != USIZE_MAX ==> usedBytes <= maxBytes
    {
      Store(key, value, now);
      EvictIfNeeded();
    }

    // evict_one_from_shard and the fetch_sub that follows it.
    method EvictFrom(i: nat) returns (evicted: bool)
      requires Backed() && usedBytes == StoredBytes(lists) && i < |shards|
      modifies this`usedBytes, this`lists, shards[i]
      ensures Backed() && usedBytes == StoredBytes(lists) && |lists| == |old(lists)|
      ensures evicted == (old(lists)[i] != [])
      ensures lists == if evicted then old(lists)[i := old(lists)[i][1..]] else old(lists)
    {
      var size := shards[i].PopLru();
      evicted := size.Some?;
      if evicted {
        PopSize(lists[i]);
        Settle(i, size.value, 0);
      }
    }

    // One scan of the shards from `start`: the first non-empty one loses its oldest entry.
    method ScanShards(start: nat) returns (evicted: bool)
      requires Backed() && usedBytes == StoredBytes(lists) && |shards| == shardMask + 1
      modifies this`usedBytes, this`lists, shards
      ensures Backed() && usedBytes == StoredBytes(lists)
      ensures evicted == Scan(Cfg(), old(lists), start, 0).Some?
      ensures lists == match Scan(Cfg(), old(lists), start, 0)
                       case None => old(lists)
                       case Some(v) => old(lists)[v := old(lists)[v][1..]]
    {
      evicted := false;
      for offset := 0 to |shards|
        invariant Backed() && usedBytes == StoredBytes(lists) && lists == old(lists)
        invariant Scan(Cfg(), lists, start, offset) == Scan(Cfg(), lists, start, 0)
      {
        var idx := Visited(start, offset, shardMask);
        evicted := EvictFrom(idx);
        if evicted {
          return;
        }
      }
    }

    // One turn of the eviction loop. A scan that evicts nothing, which the source also provides for,
    // cannot happen while bytes are stored.
    method EvictRound()
      requires Valid() && maxBytes != USIZE_MAX && usedBytes > maxBytes
      modifies this, shards
      ensures Valid()
      ensures StoredCount(old(lists)) > 0 && Abs() == EvictOne(Cfg(), old(Abs()))
    {
      ghost var v := VictimOf(Cfg(), Abs());
      var start := evictionCursor;
      evictionCursor := (start + 1) % WORD;
      var evicted := ScanShards(start);
      assert evicted && lists == old(lists)[v := old(lists)[v][1..]];
    }

    // evict_if_needed: the number of live entries bounds the loop.
    method EvictIfNeeded()
      requires Valid()
      modifies this, shards
      ensures Valid()
      ensures Abs() == Evict(Cfg(), old(Abs()))
    {
      if maxBytes == USIZE_MAX {
        return;
      }
      while usedBytes > maxBytes
        invariant Valid()
        invariant Evict(Cfg(), Abs()) == Evict(Cfg(), old(Abs()))
        decreases StoredCount(lists)
      {
        EvictRound();
      }
    }

    // The sweep of one shard.
    method PurgeShard(i: nat, asOf: nat) returns (gone: nat)
      requires Backed() && usedBytes == StoredBytes(lists) && i < |shards|
      modifies this`usedBytes, this`lists, shards[i]
      ensures Backed() && usedBytes == StoredBytes(lists)
      ensures lists == old(lists)[i := Survivors(old(lists)[i], asOf)]
      ensures gone == ExpiredCount(old(lists)[i], asOf)
    {
      var freed;
      gone, freed := shards[i].Purge(asOf);
      Settle(i, freed, 0);
    }

    // purge_expired: removes exactly what has expired and counts it.
    method PurgeExpired(asOf: nat) returns (removed: nat)
      requires Valid()
      modifies this, shards
      ensures Valid()
      ensures forall now :: Step(Cfg(), old(Abs()), Purge(asOf), now) == (Abs(), Swept(removed))
      ensures usedBytes + ExpiredBytes(old(lists), asOf) == old(usedBytes)
      ensures removed + StoredCount(lists) == StoredCount(old(lists))
    {
      removed := 0;
      for i := 0 to |shards|
        invariant Backed() && usedBytes == StoredBytes(lists)
        invariant |lists| == |old(lists)| && evictionCursor == old(evictionCursor)
        invariant forall j :: 0 <= j < |shards| ==>
            lists[j] == if j < i then Survivors(old(lists)[j], asOf) else old(lists)[j]
        invariant removed + SweptCount(old(lists)[i..], asOf) == SweptCount(old(lists), asOf)
      {
        var gone := PurgeShard(i, asOf);
        removed := removed + gone;
        assert old(lists)[i..][1..] == old(lists)[i + 1..];
      }
      SweepDistinct(old(lists), asOf);
      SweepFrees(old(lists), asOf);
      SweepRemoves(old(lists), asOf);
      assert lists == Sweep(old(lists), asOf);
    }
  }
}
