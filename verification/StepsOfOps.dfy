/**
 The interleaved model speaks of single steps, the sequential one of whole operations. Run by a thread
 that meets no interference, every operation of Cache.dfy, with its eviction, is a sequence of steps of
 Accounting.dfy with the same effect.
 */
module StepsOfOps {
  import opened Base
  import opened Masking
  import opened Recency
  import opened Cache
  import opened Accounting

  // Consecutive steps of one thread.
  datatype Trail = Trail(states: seq<State>, actions: seq<Action>)

  ghost predicate Follows(cfg: Config, f: Trail, t: nat) {
    && |f.states| == |f.actions| + 1
    && forall i :: 0 <= i < |f.actions| ==>
         Enabled(cfg, f.states[i], t, f.actions[i]) && f.states[i + 1] == Apply(cfg, f.states[i], t, f.actions[i])
  }

  ghost function End(f: Trail): State
    requires f.states != []
  {
    f.states[|f.states| - 1]
  }

  ghost function Then(cfg: Config, f: Trail, t: nat, a: Action): (r: Trail)
    requires Follows(cfg, f, t) && Enabled(cfg, End(f), t, a)
    ensures Follows(cfg, r, t) && End(r) == Apply(cfg, End(f), t, a) && r.states[0] == f.states[0]
  {
    Trail(f.states + [Apply(cfg, End(f), t, a)], f.actions + [a])
  }

  lemma JoinStep(cfg: Config, f: Trail, g: Trail, t: nat, i: nat)
    requires Follows(cfg, f, t) && Follows(cfg, g, t) && End(f) == g.states[0]
    requires i < |f.actions| + |g.actions|
    ensures var states, actions := f.states + g.states[1..], f.actions + g.actions;
            Enabled(cfg, states[i], t, actions[i]) && states[i + 1] == Apply(cfg, states[i], t, actions[i])
  {
    var states, n := f.states + g.states[1..], |f.actions|;
    if i < n {
      assert states[i] == f.states[i] && states[i + 1] == f.states[i + 1];
    } else {
      assert states[i] == g.states[i - n] && states[i + 1] == g.states[i - n + 1];
    }
  }

  lemma JoinFollows(cfg: Config, f: Trail, g: Trail, t: nat)
    requires Follows(cfg, f, t) && Follows(cfg, g, t) && End(f) == g.states[0]
    ensures Follows(cfg, Trail(f.states + g.states[1..], f.actions + g.actions), t)
  {
    var r := Trail(f.states + g.states[1..], f.actions + g.actions);
    forall i | 0 <= i < |r.actions|
      ensures Enabled(cfg, r.states[i], t, r.actions[i]) && r.states[i + 1] == Apply(cfg, r.states[i], t, r.actions[i])
    {
      JoinStep(cfg, f, g, t, i);
    }
  }

  ghost function Join(cfg: Config, f: Trail, g: Trail, t: nat): (r: Trail)
    requires Follows(cfg, f, t) && Follows(cfg, g, t) && End(f) == g.states[0]
    ensures Follows(cfg, r, t) && r.states[0] == f.states[0] && End(r) == End(g)
  {
    JoinFollows(cfg, f, g, t);
    Trail(f.states + g.states[1..], f.actions + g.actions)
  }

  // Thread `t` is idle, shard `i` is not locked, and the sizes fit.
  predicate CanLock(cfg: Config, s: State, t: nat, i: nat) {
    && |s.shards| == |s.locks| == cfg.mask + 1
    && t < |s.threads| && s.threads[t].Idle?
    && i < |s.shards| && s.locks[i].None?
  }

  ghost function Locking(cfg: Config, s: State, t: nat, i: nat): (r: Trail)
    requires CanLock(cfg, s, t, i)
    ensures Follows(cfg, r, t) && r.states[0] == s && End(r) == Apply(cfg, s, t, Lock(i))
  {
    Then(cfg, Trail([s], []), t, Lock(i))
  }

  // The state after an operation on shard `i` alone: a new list, the counter moved by the difference.
  predicate Worked(s: State, s': State, t: nat, i: nat, l: Recent, next: Phase)
    requires i < |s.shards| && t < |s.threads|
  {
    && s'.shards == s.shards[i := l]
    && s'.locks == s.locks && s'.cursor == s.cursor
    && s'.threads == s.threads[t := next]
    && s'.used - s.used == TotalSize(l) - TotalSize(s.shards[i])
  }

  // Nothing, a touch, or a new deadline.
  lemma QuietTrail(cfg: Config, s: State, t: nat, i: nat, a: Action) returns (f: Trail)
    requires CanLock(cfg, s, t, i)
    requires (a.Touch? || a.Retime?) && a.at < |s.shards[i]|
    ensures Follows(cfg, f, t) && f.states[0] == s
    ensures var l := s.shards[i];
            Worked(s, End(f), t, i,
                   if a.Touch? then DropAt(l, a.at) + [l[a.at]]
                       else l[a.at := l[a.at].(deadline := Some(a.deadline))], Idle)
  {
    var l := s.shards[i];
    f := Locking(cfg, s, t, i);
    f := Then(cfg, f, t, a);
    f := Then(cfg, f, t, Unlock);
    if a.Touch? {
      MovedSize(l, a.at);
    } else {
      DeadlineKeepsSize(l, a.at, a.deadline);
    }
    assert s.locks[i := Some(t)][i := None] == s.locks;
  }

  lemma IdleTrail(cfg: Config, s: State, t: nat, i: nat) returns (f: Trail)
    requires CanLock(cfg, s, t, i)
    ensures Follows(cfg, f, t) && f.states[0] == s && Worked(s, End(f), t, i, s.shards[i], Idle)
  {
    f := Locking(cfg, s, t, i);
    f := Then(cfg, f, t, Unlock);
    assert s.locks[i := Some(t)][i := None] == s.locks;
  }

  lemma RemoveTrail(cfg: Config, s: State, t: nat, i: nat, k: nat) returns (f: Trail)
    requires CanLock(cfg, s, t, i) && k < |s.shards[i]|
    ensures Follows(cfg, f, t) && f.states[0] == s && Worked(s, End(f), t, i, DropAt(s.shards[i], k), Idle)
  {
    f := Locking(cfg, s, t, i);
    f := Then(cfg, f, t, Remove(k));
    f := Then(cfg, f, t, Commit);
    f := Then(cfg, f, t, Unlock);
    TotalSizeDrop(s.shards[i], k);
    assert s.locks[i := Some(t)][i := None] == s.locks;
  }

  lemma InsertTrail(cfg: Config, s: State, t: nat, i: nat, e: Entry) returns (f: Trail)
    requires CanLock(cfg, s, t, i) && Find(s.shards[i], e.key).None?
    ensures Follows(cfg, f, t) && f.states[0] == s && Worked(s, End(f), t, i, s.shards[i] + [e], Checking)
  {
    f := Locking(cfg, s, t, i);
    f := Then(cfg, f, t, Insert(e));
    f := Then(cfg, f, t, Commit);
    f := Then(cfg, f, t, Unlock);
    TotalSizeAppend(s.shards[i], [e]);
    SingleSize(e);
    assert s.locks[i := Some(t)][i := None] == s.locks;
  }

  // Removing an entry and taking its bytes off the counter, the lock kept.
  lemma TakeOutTrail(cfg: Config, s: State, t: nat, i: nat, k: nat) returns (f: Trail)
    requires CanLock(cfg, s, t, i) && k < |s.shards[i]|
    ensures Follows(cfg, f, t) && f.states[0] == s
    ensures End(f) == Put(s, t, i, DropAt(s.shards[i], k), Holding(i, false))
                      .(locks := s.locks[i := Some(t)], used := s.used - Size(s.shards[i][k]))
  {
    f := Locking(cfg, s, t, i);
    f := Then(cfg, f, t, Remove(k));
    f := Then(cfg, f, t, Commit);
  }

  // Inserting an entry, charging for it and letting the lock go.
  lemma PutInTrail(cfg: Config, s: State, t: nat, i: nat, e: Entry) returns (f: Trail)
    requires |s.shards| == |s.locks| == cfg.mask + 1 && i < |s.shards|
    requires t < |s.threads| && s.threads[t] == Holding(i, false) && Find(s.shards[i], e.key).None?
    ensures Follows(cfg, f, t) && f.states[0] == s
    ensures End(f) == Put(s, t, i, s.shards[i] + [e], Checking)
                      .(locks := s.locks[i := None], used := s.used + Size(e), last := t)
  {
    f := Then(cfg, Trail([s], []), t, Insert(e));
    f := Then(cfg, f, t, Commit);
    f := Then(cfg, f, t, Unlock);
  }

  lemma ReplaceTrail(cfg: Config, s: State, t: nat, i: nat, k: nat, e: Entry) returns (f: Trail)
    requires CanLock(cfg, s, t, i) && k < |s.shards[i]| && Find(DropAt(s.shards[i], k), e.key).None?
    ensures Follows(cfg, f, t) && f.states[0] == s && Worked(s, End(f), t, i, DropAt(s.shards[i], k) + [e], Checking)
  {
    f := TakeOutTrail(cfg, s, t, i, k);
    var g := PutInTrail(cfg, End(f), t, i, e);
    f := Join(cfg, f, g, t);
    OverwrittenSize(s.shards[i], k, e);
    assert s.locks[i := Some(t)][i := None] == s.locks;
  }

  // Overwriting an entry and settling the difference, under a lock that is held.
  lemma OverwriteTrail(cfg: Config, s: State, t: nat, i: nat, k: nat, value: Bytes) returns (f: Trail)
    requires |s.shards| == |s.locks| == cfg.mask + 1 && i < |s.shards| && k < |s.shards[i]|
    requires t < |s.threads| && s.threads[t] == Holding(i, false)
    ensures Follows(cfg, f, t) && f.states[0] == s
    ensures var l := s.shards[i];
            && End(f).shards == s.shards[i := DropAt(l, k) + [Entry(l[k].key, value, None)]]
            && End(f).locks == s.locks && End(f).cursor == s.cursor
            && End(f).threads == s.threads[t := Holding(i, true)]
            && End(f).used == s.used + |value| - |l[k].value|
  {
    f := Then(cfg, Trail([s], []), t, Rewrite(k, value));
    if |value| != |s.shards[i][k].value| {
      f := Then(cfg, f, t, Commit);
    }
  }

  lemma RewriteTrail(cfg: Config, s: State, t: nat, i: nat, k: nat, value: Bytes) returns (f: Trail)
    requires CanLock(cfg, s, t, i) && k < |s.shards[i]|
    ensures Follows(cfg, f, t) && f.states[0] == s
    ensures Worked(s, End(f), t, i, DropAt(s.shards[i], k) + [Entry(s.shards[i][k].key, value, None)], Checking)
  {
    var l := s.shards[i];
    f := Locking(cfg, s, t, i);
    var g := OverwriteTrail(cfg, End(f), t, i, k, value);
    f := Join(cfg, f, g, t);
    f := Then(cfg, f, t, Unlock);
    OverwrittenSize(l, k, Entry(l[k].key, value, None));
    assert s.locks[i := Some(t)][i := None] == s.locks;
  }

  lemma {:induction false} Position(l: Recent, key: Bytes) returns (k: nat)
    requires Find(l, key).Some?
    ensures k < |l| && l[k] == Find(l, key).value && l[k].key == key
  {
    if l[0].key == key {
      k := 0;
    } else {
      k := Position(l[1..], key);
      k := k + 1;
    }
  }

  // Setting a key: insert it, or overwrite it, or (expired) remove it and insert it.
  lemma SetIsTrail(cfg: Config, s: State, t: nat, i: nat, key: Bytes, value: Bytes, now: nat) returns (f: Trail)
    requires CanLock(cfg, s, t, i) && DistinctKeys(s.shards[i])
    ensures Follows(cfg, f, t) && f.states[0] == s && Worked(s, End(f), t, i, SetIn(s.shards[i], key, value), Checking)
  {
    var l := s.shards[i];
    match Find(l, key)
    case None =>
      WithoutAbsent(l, key);
      f := InsertTrail(cfg, s, t, i, Entry(key, value, None));
    case Some(e) =>
      var k := Position(l, key);
      WithoutAt(l, k);
      if Expired(e, now) {
        FindWithout(l, key, key);
        f := ReplaceTrail(cfg, s, t, i, k, Entry(key, value, None));
      } else {
        f := RewriteTrail(cfg, s, t, i, k, value);
      }
  }

  // Setting a deadline in place.
  lemma RetimeTrail(cfg: Config, s: State, t: nat, i: nat, k: nat, deadline: nat) returns (f: Trail)
    requires CanLock(cfg, s, t, i) && DistinctKeys(s.shards[i]) && k < |s.shards[i]|
    ensures Follows(cfg, f, t) && f.states[0] == s
    ensures Worked(s, End(f), t, i, WithDeadline(s.shards[i], s.shards[i][k].key, deadline), Idle)
  {
    WithDeadlineAt(s.shards[i], k, deadline);
    f := QuietTrail(cfg, s, t, i, Retime(k, deadline));
  }

  // Any other operation, on a key that is stored live.
  lemma LiveIsTrail(cfg: Config, s: State, t: nat, i: nat, op: Op, now: nat) returns (f: Trail)
    requires CanLock(cfg, s, t, i) && DistinctKeys(s.shards[i]) && !op.Purge? && !op.Set?
    requires Live(s.shards[i], op.key, now).Some?
    ensures Follows(cfg, f, t) && f.states[0] == s
    ensures Worked(s, End(f), t, i, OnShard(s.shards[i], op, now).0, Idle)
  {
    var k := Position(s.shards[i], op.key);
    WithoutAt(s.shards[i], k);
    match op {
      case Get(_) => f := QuietTrail(cfg, s, t, i, Touch(k));
      case Delete(_) => f := RemoveTrail(cfg, s, t, i, k);
      case Ttl(_) => f := IdleTrail(cfg, s, t, i);
      case Expire(_, ttl) =>
        if now + ttl <= INSTANT_MAX {
          f := RetimeTrail(cfg, s, t, i, k, now + ttl);
        } else {
          f := IdleTrail(cfg, s, t, i);
        }
    }
  }

  // On a key that is not: absent, or expired and removed.
  lemma MissIsTrail(cfg: Config, s: State, t: nat, i: nat, op: Op, now: nat) returns (f: Trail)
    requires CanLock(cfg, s, t, i) && DistinctKeys(s.shards[i]) && !op.Purge? && !op.Set?
    requires Live(s.shards[i], op.key, now).None?
    ensures Follows(cfg, f, t) && f.states[0] == s
    ensures Worked(s, End(f), t, i, OnShard(s.shards[i], op, now).0, Idle)
  {
    if Find(s.shards[i], op.key).None? {
      WithoutAbsent(s.shards[i], op.key);
      f := IdleTrail(cfg, s, t, i);
    } else {
      var k := Position(s.shards[i], op.key);
      WithoutAt(s.shards[i], k);
      f := RemoveTrail(cfg, s, t, i, k);
    }
  }

  lemma OtherIsTrail(cfg: Config, s: State, t: nat, i: nat, op: Op, now: nat) returns (f: Trail)
    requires CanLock(cfg, s, t, i) && DistinctKeys(s.shards[i]) && !op.Purge? && !op.Set?
    ensures Follows(cfg, f, t) && f.states[0] == s
    ensures Worked(s, End(f), t, i, OnShard(s.shards[i], op, now).0, Idle)
  {
    if Live(s.shards[i], op.key, now).Some? {
      f := LiveIsTrail(cfg, s, t, i, op, now);
    } else {
      f := MissIsTrail(cfg, s, t, i, op, now);
    }
  }

  // The locked part of a keyed operation: the same lists, the counter moved by the difference in
  // stored bytes. A set has its eviction still to do.
  lemma LockedIsTrail(cfg: Config, c: Cache, s: State, t: nat, op: Op, now: nat) returns (f: Trail)
    requires WellFormed(cfg, c) && !op.Purge? && s.shards == c.shards && CanLock(cfg, s, t, ShardOf(cfg, op.key))
    ensures Follows(cfg, f, t) && f.states[0] == s
    ensures End(f).shards == Locked(cfg, c, op, now).shards && End(f).locks == s.locks && End(f).cursor == s.cursor
    ensures End(f).used - s.used == StoredBytes(End(f).shards) - StoredBytes(s.shards)
    ensures End(f).threads == s.threads[t := if op.Set? then Checking else Idle]
  {
    var i := ShardOf(cfg, op.key);
    StoredUpdate(s.shards, i, OnShard(s.shards[i], op, now).0);
    if op.Set? {
      f := SetIsTrail(cfg, s, t, i, op.key, op.value, now);
    } else {
      f := OtherIsTrail(cfg, s, t, i, op, now);
    }
  }

  // ---------------------------------------------------------------------------------------
  // Eviction and sweeping.

  predicate Unlocked(cfg: Config, s: State) {
    && |s.shards| == |s.locks| == cfg.mask + 1
    && forall i :: 0 <= i < |s.locks| ==> s.locks[i].None?
  }

  // No shard is locked and the counter has nothing in flight: the state is that of the sequential engine.
  predicate Quiet(cfg: Config, s: State, c: Cache) {
    && Unlocked(cfg, s)
    && s.shards == c.shards && s.cursor == c.cursor && s.used == StoredBytes(c.shards)
  }

  // A scan visits shards up to its victim.
  lemma {:induction false} ScanTrail(cfg: Config, s: State, t: nat, start: nat, offset: nat) returns (f: Trail)
    requires Unlocked(cfg, s) && t < |s.threads| && s.threads[t] == Scanning(start, offset)
    requires offset < |s.shards| && Scan(cfg, s.shards, start, offset).Some?
    ensures Follows(cfg, f, t) && f.states[0] == s
    ensures var v := Scan(cfg, s.shards, start, offset).value;
            End(f) == Put(s, t, v, s.shards[v][1..], Evicted(Size(s.shards[v][0])))
    decreases |s.shards| - offset
  {
    f := Then(cfg, Trail([s], []), t, Visit);
    if s.shards[Visited(start, offset, cfg.mask)] == [] {
      var g := ScanTrail(cfg, End(f), t, start, offset + 1);
      f := Join(cfg, f, g, t);
    }
  }

  // Over budget: the counter is read and a start is claimed.
  lemma ClaimTrail(cfg: Config, c: Cache, s: State, t: nat) returns (f: Trail)
    requires Quiet(cfg, s, c) && OverBudget(cfg, c) && t < |s.threads| && s.threads[t] == Checking
    ensures Follows(cfg, f, t) && f.states[0] == s
    ensures End(f) == Move(s, t, Scanning(c.cursor, 0)).(cursor := (c.cursor + 1) % WORD)
  {
    f := Then(cfg, Trail([s], []), t, Load);
    f := Then(cfg, f, t, Claim);
  }

  // The victim is popped and comes off the counter.
  lemma PopTrail(cfg: Config, s: State, t: nat, start: nat) returns (f: Trail)
    requires Unlocked(cfg, s) && t < |s.threads| && s.threads[t] == Scanning(start, 0)
    requires Scan(cfg, s.shards, start, 0).Some?
    ensures Follows(cfg, f, t) && f.states[0] == s
    ensures var v := Scan(cfg, s.shards, start, 0).value;
            End(f) == Put(s, t, v, s.shards[v][1..], Checking).(used := s.used - Size(s.shards[v][0]))
  {
    f := ScanTrail(cfg, s, t, start, 0);
    f := Then(cfg, f, t, Commit);
  }

  // One round of eviction.
  lemma RoundTrail(cfg: Config, c: Cache, s: State, t: nat) returns (f: Trail)
    requires WellFormed(cfg, c) && Quiet(cfg, s, c) && OverBudget(cfg, c)
    requires t < |s.threads| && s.threads[t] == Checking
    ensures StoredCount(c.shards) > 0
    ensures Follows(cfg, f, t) && f.states[0] == s
    ensures Quiet(cfg, End(f), EvictOne(cfg, c)) && End(f).threads == s.threads
  {
    BytesNeedEntries(c.shards);
    ScanFindsVictim(cfg, c);
    var v := Scan(cfg, c.shards, c.cursor, 0).value;
    StoredUpdate(c.shards, v, c.shards[v][1..]);
    f := ClaimTrail(cfg, c, s, t);
    var g := PopTrail(cfg, End(f), t, c.cursor);
    f := Join(cfg, f, g, t);
  }

  lemma {:induction false} EvictIsTrail(cfg: Config, c: Cache, s: State, t: nat) returns (f: Trail)
    requires WellFormed(cfg, c) && Quiet(cfg, s, c) && t < |s.threads| && s.threads[t] == Checking
    ensures Follows(cfg, f, t) && f.states[0] == s
    ensures Quiet(cfg, End(f), Evict(cfg, c)) && End(f).threads == s.threads[t := Idle]
    decreases StoredCount(c.shards)
  {
    if OverBudget(cfg, c) {
      f := RoundTrail(cfg, c, s, t);
      var g := EvictIsTrail(cfg, EvictOne(cfg, c), End(f), t);
      f := Join(cfg, f, g, t);
    } else {
      f := Then(cfg, Trail([s], []), t, Load);
    }
  }

  // The first expired entry of a list that has one.
  lemma {:induction false} FirstExpired(l: Recent, now: nat) returns (k: nat)
    requires ExpiredCount(l, now) > 0
    ensures k < |l| && Expired(l[k], now)
  {
    if Expired(l[0], now) {
      k := 0;
    } else {
      k := FirstExpired(l[1..], now);
      k := k + 1;
    }
  }

  lemma {:induction false} NoneExpired(l: Recent, now: nat)
    requires ExpiredCount(l, now) == 0
    ensures Survivors(l, now) == l
  {
    if l != [] {
      NoneExpired(l[1..], now);
    }
  }

  // One entry goes and comes off the counter, under a lock that is held.
  lemma DropTrail(cfg: Config, s: State, t: nat, i: nat, k: nat) returns (f: Trail)
    requires |s.shards| == |s.locks| == cfg.mask + 1 && i < |s.shards| && k < |s.shards[i]|
    requires t < |s.threads| && s.threads[t] == Holding(i, false)
    ensures Follows(cfg, f, t) && f.states[0] == s
    ensures End(f) == s.(shards := s.shards[i := DropAt(s.shards[i], k)], used := s.used - Size(s.shards[i][k]))
  {
    f := Then(cfg, Trail([s], []), t, Remove(k));
    f := Then(cfg, f, t, Commit);
  }

  // Under the lock of shard `i`, the expired entries go one by one, each off the counter at once.
  lemma {:induction false} ClearTrail(cfg: Config, s: State, t: nat, i: nat, asOf: nat) returns (f: Trail)
    requires |s.shards| == |s.locks| == cfg.mask + 1 && i < |s.shards|
    requires t < |s.threads| && s.threads[t] == Holding(i, false)
    ensures Follows(cfg, f, t) && f.states[0] == s
    ensures var l := Survivors(s.shards[i], asOf);
            End(f) == s.(shards := s.shards[i := l], used := s.used - TotalSize(s.shards[i]) + TotalSize(l))
    decreases ExpiredCount(s.shards[i], asOf)
  {
    var l := s.shards[i];
    if ExpiredCount(l, asOf) == 0 {
      f := Trail([s], []);
      NoneExpired(l, asOf);
    } else {
      var k := FirstExpired(l, asOf);
      SurvivorsDrop(l, k, asOf);
      TotalSizeDrop(l, k);
      f := DropTrail(cfg, s, t, i, k);
      var g := ClearTrail(cfg, End(f), t, i, asOf);
      f := Join(cfg, f, g, t);
    }
  }

  // One shard of a sweep.
  lemma SweepShardTrail(cfg: Config, s: State, t: nat, i: nat, asOf: nat) returns (f: Trail)
    requires CanLock(cfg, s, t, i)
    ensures Follows(cfg, f, t) && f.states[0] == s
    ensures Worked(s, End(f), t, i, Survivors(s.shards[i], asOf), Idle)
  {
    f := Locking(cfg, s, t, i);
    var g := ClearTrail(cfg, End(f), t, i, asOf);
    f := Join(cfg, f, g, t);
    f := Then(cfg, f, t, Unlock);
    assert s.locks[i := Some(t)][i := None] == s.locks;
  }

  // The shards of a sweep in turn: those before `i` are done.
  lemma {:induction false} SweepTrail(cfg: Config, c: Cache, s: State, t: nat, i: nat, asOf: nat) returns (f: Trail)
    requires |c.shards| == cfg.mask + 1 && i <= |c.shards|
    requires Quiet(cfg, s, Cache(Sweep(c.shards[..i], asOf) + c.shards[i..], c.cursor))
    requires t < |s.threads| && s.threads[t] == Idle
    ensures Follows(cfg, f, t) && f.states[0] == s
    ensures Quiet(cfg, End(f), Cache(Sweep(c.shards, asOf), c.cursor)) && End(f).threads == s.threads
    decreases |c.shards| - i
  {
    if i == |c.shards| {
      f := Trail([s], []);
      assert Sweep(c.shards[..i], asOf) + c.shards[i..] == Sweep(c.shards, asOf);
    } else {
      var l := Survivors(c.shards[i], asOf);
      f := SweepShardTrail(cfg, s, t, i, asOf);
      StoredUpdate(s.shards, i, l);
      assert s.shards[i := l] == Sweep(c.shards[..i + 1], asOf) + c.shards[i + 1..];
      var g := SweepTrail(cfg, c, End(f), t, i + 1, asOf);
      f := Join(cfg, f, g, t);
    }
  }

  // Every operation of the sequential engine, eviction and sweep included, is a run of one thread of
  // the interleaved model: it starts and ends idle, and leaves the lists, the cursor and the counter
  // of the sequential step.
  lemma OperationIsTrail(cfg: Config, c: Cache, s: State, t: nat, op: Op, now: nat) returns (f: Trail)
    requires WellFormed(cfg, c) && Quiet(cfg, s, c) && t < |s.threads| && s.threads[t] == Idle
    ensures Follows(cfg, f, t) && f.states[0] == s
    ensures Quiet(cfg, End(f), Step(cfg, c, op, now).0) && End(f).threads == s.threads
  {
    if op.Purge? {
      assert Sweep(c.shards[..0], op.asOf) + c.shards[0..] == c.shards;
      f := SweepTrail(cfg, c, s, t, 0, op.asOf);
    } else {
      f := LockedIsTrail(cfg, c, s, t, op, now);
      if op.Set? {
        var g := EvictIsTrail(cfg, Locked(cfg, c, op, now), End(f), t);
        f := Join(cfg, f, g, t);
      }
    }
  }
}
