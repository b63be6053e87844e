/**
 The order of eviction among shards (hkv-engine/src/memory.rs, evict_if_needed): rounds start one shard
 further each time, so that evictions are not concentrated.
 */
module RoundRobin {
  import opened Base
  import opened Masking
  import opened Recency
  import opened Cache

  // `r` rounds of eviction.
  function Rounds(cfg: Config, c: Cache, r: nat): (c': Cache)
    requires WellFormed(cfg, c) && r <= StoredCount(c.shards)
    ensures WellFormed(cfg, c') && StoredCount(c'.shards) + r == StoredCount(c.shards)
  {
    if r == 0 then c else EvictOne(cfg, Rounds(cfg, c, r - 1))
  }

  lemma {:induction false} RoundsFromFirst(cfg: Config, c: Cache, r: nat)
    requires WellFormed(cfg, c) && r < StoredCount(c.shards)
    ensures Rounds(cfg, c, r + 1) == Rounds(cfg, EvictOne(cfg, c), r)
  {
    if r > 0 {
      RoundsFromFirst(cfg, c, r - 1);
    }
  }

  // Every one of the first `r` rounds was needed.
  ghost predicate AllNeeded(cfg: Config, c: Cache, r: nat)
    requires WellFormed(cfg, c) && r <= StoredCount(c.shards)
  {
    forall j :: 0 <= j < r ==> OverBudget(cfg, Rounds(cfg, c, j))
  }

  lemma OneMoreNeeded(cfg: Config, c: Cache, r: nat)
    requires WellFormed(cfg, c) && OverBudget(cfg, c) && r < StoredCount(c.shards)
    requires AllNeeded(cfg, EvictOne(cfg, c), r)
    ensures AllNeeded(cfg, c, r + 1)
    ensures Rounds(cfg, c, r + 1) == Rounds(cfg, EvictOne(cfg, c), r)
  {
    RoundsFromFirst(cfg, c, r);
    forall j | 0 <= j < r + 1 ensures OverBudget(cfg, Rounds(cfg, c, j)) {
      if j > 0 {
        RoundsFromFirst(cfg, c, j - 1);
      }
    }
  }

  lemma EvictUnfolds(cfg: Config, c: Cache)
    requires WellFormed(cfg, c) && OverBudget(cfg, c)
    ensures StoredCount(c.shards) > 0 && Evict(cfg, c) == Evict(cfg, EvictOne(cfg, c))
    ensures StoredCount(EvictOne(cfg, c).shards) + 1 == StoredCount(c.shards)
  {
    BytesNeedEntries(c.shards);
  }

  // Eviction is as many rounds as it takes, and no more.
  lemma {:induction false} EvictIsRounds(cfg: Config, c: Cache) returns (r: nat)
    requires WellFormed(cfg, c)
    ensures r <= StoredCount(c.shards) && Evict(cfg, c) == Rounds(cfg, c, r) && AllNeeded(cfg, c, r)
    decreases StoredCount(c.shards)
  {
    if OverBudget(cfg, c) {
      EvictUnfolds(cfg, c);
      r := EvictIsRounds(cfg, EvictOne(cfg, c));
      OneMoreNeeded(cfg, c, r);
      r := r + 1;
    } else {
      r := 0;
    }
  }

  // ---------------------------------------------------------------------------------------
  // The victim of a round.

  lemma {:induction false} ScanSkips(cfg: Config, shards: seq<Recent>, start: nat, from: nat, offset: nat)
    requires |shards| == cfg.mask + 1 && from <= offset < |shards| && Scan(cfg, shards, start, from).Some?
    requires forall o :: from <= o < offset ==> Visited(start, o, cfg.mask) != Scan(cfg, shards, start, from).value
    ensures forall o :: from <= o < offset ==> shards[Visited(start, o, cfg.mask)] == []
    decreases offset - from
  {
    if from < offset {
      ScanSkips(cfg, shards, start, from + 1, offset);
    }
  }

  // The victim is the first shard with entries, counting from the cursor around: every shard that comes
  // before it is empty.
  lemma VictimIsFirst(cfg: Config, c: Cache, i: nat)
    requires WellFormed(cfg, c) && StoredCount(c.shards) > 0 && i < |c.shards|
    ensures Scan(cfg, c.shards, c.cursor, 0).Some?
    ensures var v, n := Scan(cfg, c.shards, c.cursor, 0).value, |c.shards|;
            && EvictOne(cfg, c) == Cache(c.shards[v := c.shards[v][1..]], (c.cursor + 1) % WORD)
            && c.shards[v] != []
            && (OffsetOf(c.cursor, i, n) < OffsetOf(c.cursor, v, n) ==> c.shards[i] == [])
  {
    ScanFindsVictim(cfg, c);
    var k :| 0 <= k <= 63 && |c.shards| == Pow2(k);
    var v, n := Scan(cfg, c.shards, c.cursor, 0).value, |c.shards|;
    ScanVisitsEachOnce(c.cursor, v, k, 0);
    ScanVisitsEachOnce(c.cursor, i, k, 0);
    var last := OffsetOf(c.cursor, v, n);
    forall o | 0 <= o < last ensures Visited(c.cursor, o, cfg.mask) != v {
      ScanVisitsEachOnce(c.cursor, v, k, o);
    }
    ScanSkips(cfg, c.shards, c.cursor, 0, last);
    ScanVisitsEachOnce(c.cursor, i, k, OffsetOf(c.cursor, i, n));
  }

  // ---------------------------------------------------------------------------------------
  // A full turn.

  lemma {:induction false} AtLeastOneEach(shards: seq<Recent>)
    requires forall i :: 0 <= i < |shards| ==> shards[i] != []
    ensures StoredCount(shards) >= |shards|
  {
    if shards != [] {
      AtLeastOneEach(shards[1..]);
    }
  }

  predicate MetBefore(cfg: Config, start: nat, r: nat, i: nat) {
    exists o :: 0 <= o < r && Visited(start, o, cfg.mask) == i
  }

  // After `r` rounds from `c`: the shards met at the first r offsets lost their oldest entry, the others
  // nothing.
  ghost predicate Served(cfg: Config, c: Cache, r: nat, c': Cache) {
    && |c'.shards| == |c.shards| && c'.cursor == (c.cursor + r) % WORD
    && forall i :: 0 <= i < |c.shards| && c.shards[i] != [] ==>
         c'.shards[i] == if MetBefore(cfg, c.cursor, r, i) then c.shards[i][1..] else c.shards[i]
  }

  lemma NextCursor(start: nat, r: nat, mask: nat)
    ensures Visited((start + r) % WORD, 0, mask) == Visited(start, r, mask)
    ensures ((start + r) % WORD + 1) % WORD == (start + r + 1) % WORD
  {
  }

  lemma NotMetTwice(cfg: Config, c: Cache, r: nat)
    requires WellFormed(cfg, c) && r < |c.shards|
    ensures Visited(c.cursor, r, cfg.mask) < |c.shards|
    ensures !MetBefore(cfg, c.cursor, r, Visited(c.cursor, r, cfg.mask))
  {
    var k :| 0 <= k <= 63 && |c.shards| == Pow2(k);
    var v := Visited(c.cursor, r, cfg.mask);
    ScanVisitsEachOnce(c.cursor, v, k, r);
    forall o | 0 <= o < r ensures Visited(c.cursor, o, cfg.mask) != v {
      ScanVisitsEachOnce(c.cursor, v, k, o);
    }
  }

  lemma AllMet(cfg: Config, c: Cache, i: nat)
    requires WellFormed(cfg, c) && i < |c.shards|
    ensures MetBefore(cfg, c.cursor, |c.shards|, i)
  {
    var k :| 0 <= k <= 63 && |c.shards| == Pow2(k);
    var o := OffsetOf(c.cursor, i, |c.shards|);
    ScanVisitsEachOnce(c.cursor, i, k, 0);
    ScanVisitsEachOnce(c.cursor, i, k, o);
    assert Visited(c.cursor, o, cfg.mask) == i;
  }

  lemma OneMoreMet(cfg: Config, start: nat, r: nat, i: nat)
    ensures MetBefore(cfg, start, r + 1, i) <==> MetBefore(cfg, start, r, i) || Visited(start, r, cfg.mask) == i
  {
    if MetBefore(cfg, start, r + 1, i) {
      var o :| 0 <= o < r + 1 && Visited(start, o, cfg.mask) == i;
      assert o == r || MetBefore(cfg, start, r, i);
    }
  }

  lemma NextServed(cfg: Config, c: Cache, r: nat, c': Cache)
    requires WellFormed(cfg, c) && WellFormed(cfg, c') && Served(cfg, c, r, c') && r < |c.shards|
    requires forall i :: 0 <= i < |c.shards| ==> c.shards[i] != []
    requires StoredCount(c'.shards) > 0
    ensures Served(cfg, c, r + 1, EvictOne(cfg, c'))
  {
    var v := Visited(c.cursor, r, cfg.mask);
    NotMetTwice(cfg, c, r);
    NextCursor(c.cursor, r, cfg.mask);
    assert c'.shards[v] == c.shards[v];
    assert Scan(cfg, c'.shards, c'.cursor, 0) == Some(v);
    forall i | 0 <= i < |c.shards|
      ensures MetBefore(cfg, c.cursor, r + 1, i) <==> MetBefore(cfg, c.cursor, r, i) || v == i
    {
      OneMoreMet(cfg, c.cursor, r, i);
    }
  }

  lemma {:induction false} FirstRounds(cfg: Config, c: Cache, r: nat)
    requires WellFormed(cfg, c) && r <= |c.shards| && forall i :: 0 <= i < |c.shards| ==> c.shards[i] != []
    ensures r <= StoredCount(c.shards) && Served(cfg, c, r, Rounds(cfg, c, r))
  {
    AtLeastOneEach(c.shards);
    if r > 0 {
      FirstRounds(cfg, c, r - 1);
      NextServed(cfg, c, r - 1, Rounds(cfg, c, r - 1));
    }
  }

  // With entries in every shard, as many rounds as there are shards take the oldest entry of each, and
  // bring the cursor around.
  lemma FullTurnTakesOneOfEach(cfg: Config, c: Cache, i: nat)
    requires WellFormed(cfg, c) && forall j :: 0 <= j < |c.shards| ==> c.shards[j] != []
    requires i < |c.shards|
    ensures |c.shards| <= StoredCount(c.shards)
    ensures var c' := Rounds(cfg, c, |c.shards|);
            |c'.shards| == |c.shards| && c'.shards[i] == c.shards[i][1..]
            && c'.cursor == (c.cursor + |c.shards|) % WORD
  {
    FirstRounds(cfg, c, |c.shards|);
    AllMet(cfg, c, i);
  }
}
