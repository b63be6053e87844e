/**
 The contract of the engine (hkv-engine/src/engine.rs): a map from keys to values with optional
 deadlines. Over any run under a clock that does not go back, the sharded cache answers like that
 map when its capacity is unlimited, and answers like it or reports a miss when it is bounded.
 */
module PlainStore {
  import opened Base
  import opened Recency
  import opened Cache

  datatype Stored = Stored(value: Bytes, deadline: Option<nat>)

  type Plain = map<Bytes, Stored>

  predicate Gone(s: Stored, now: nat) {
    s.deadline.Some? && now >= s.deadline.value
  }

  function Alive(m: Plain, key: Bytes, now: nat): Option<Stored> {
    if key in m && !Gone(m[key], now) then Some(m[key]) else None
  }

  function TtlOf(s: Option<Stored>, now: nat): TtlStatus {
    match s
    case None => Missing
    case Some(s) =>
      if s.deadline.None? then NoExpiry
      else if s.deadline.value <= now then Missing
      else ExpiresIn(s.deadline.value - now)
  }

  function PlainStep(m: Plain, op: Op, now: nat): (Plain, Answer)
    requires !op.Purge?
  {
    var s := Alive(m, op.key, now);
    match op
    case Get(key) => (m, Value(if s.Some? then Some(s.value.value) else None))
    case Set(key, value) => (m[key := Stored(value, None)], Done)
    case Delete(key) => (m - {key}, Removed(s.Some?))
    case Expire(key, ttl) =>
      if s.None? then (m, Expiry(NotFound))
      else if now + ttl > INSTANT_MAX then (m, Expiry(Overflowed))
      else (m[key := Stored(s.value.value, Some(now + ttl))], Expiry(Applied))
    case Ttl(key) => (m, Remaining(TtlOf(s, now)))
  }

  // ---------------------------------------------------------------------------------------
  // Runs.

  datatype Event = Event(now: nat, op: Op)

  // Clock readings never decrease, and a sweep is not asked about the future.
  predicate Clocked(events: seq<Event>, start: nat) {
    events != [] ==>
      && start <= events[0].now
      && (events[0].op.Purge? ==> events[0].op.asOf <= events[0].now)
      && Clocked(events[1..], events[0].now)
  }

  // The answers of the operations a caller asked for; sweeps run in the background.
  function Answers(cfg: Config, c: Cache, events: seq<Event>): seq<Answer>
    requires WellFormed(cfg, c)
    decreases |events|
  {
    if events == [] then []
    else
      var (c', a) := Step(cfg, c, events[0].op, events[0].now);
      (if events[0].op.Purge? then [] else [a]) + Answers(cfg, c', events[1..])
  }

  // The map never hears of a sweep.
  function PlainAnswers(m: Plain, events: seq<Event>): seq<Answer>
    decreases |events|
  {
    if events == [] then []
    else if events[0].op.Purge? then PlainAnswers(m, events[1..])
    else
      var (m', a) := PlainStep(m, events[0].op, events[0].now);
      [a] + PlainAnswers(m', events[1..])
  }

  function Asked(events: seq<Event>): seq<Op> {
    if events == [] then []
    else (if events[0].op.Purge? then [] else [events[0].op]) + Asked(events[1..])
  }

  // What an operation answers when its key is not there.
  function Miss(op: Op): Answer {
    match op
    case Get(_) => Value(None)
    case Set(_, _) => Done
    case Delete(_) => Removed(false)
    case Expire(_, _) => Expiry(NotFound)
    case Ttl(_) => Remaining(Missing)
    case Purge(_) => Swept(0)
  }

  // ---------------------------------------------------------------------------------------
  // The simulation.

  function StoredOf(e: Option<Entry>): Option<Stored> {
    match e
    case None => None
    case Some(e) => Some(Stored(e.value, e.deadline))
  }

  function LiveOf(cfg: Config, c: Cache, key: Bytes, now: nat): Option<Stored>
    requires WellFormed(cfg, c)
  {
    StoredOf(Live(c.shards[ShardOf(cfg, key)], key, now))
  }

  // A bounded cache may have forgotten.
  predicate Agrees(exact: bool, cached: Option<Stored>, plain: Option<Stored>) {
    cached == plain || (!exact && cached.None?)
  }

  predicate AnswerOk(exact: bool, op: Op, a: Answer, plain: Answer) {
    a == plain || (!exact && a == Miss(op))
  }

  ghost predicate Simulates(exact: bool, cfg: Config, c: Cache, m: Plain, now: nat)
    requires WellFormed(cfg, c)
  {
    forall key :: Agrees(exact, LiveOf(cfg, c, key, now), Alive(m, key, now))
  }

  // Time passing only takes entries away, and from both sides alike.
  lemma LiveLater(l: Recent, key: Bytes, now: nat, later: nat)
    requires now <= later
    ensures Live(l, key, later) ==
            match Live(l, key, now)
            case None => None
            case Some(e) => if Expired(e, later) then None else Some(e)
  {
  }

  lemma AgreesLater(exact: bool, cfg: Config, c: Cache, m: Plain, now: nat, later: nat)
    requires WellFormed(cfg, c) && Simulates(exact, cfg, c, m, now) && now <= later
    ensures Simulates(exact, cfg, c, m, later)
  {
    forall key ensures Agrees(exact, LiveOf(cfg, c, key, later), Alive(m, key, later)) {
      assert Agrees(exact, LiveOf(cfg, c, key, now), Alive(m, key, now));
      LiveLater(c.shards[ShardOf(cfg, key)], key, now, later);
    }
  }

  // Evicting an entry makes its key absent and leaves every other key alone.
  lemma TailForgets(l: Recent, key: Bytes, now: nat)
    requires DistinctKeys(l) && l != []
    ensures Live(l[1..], key, now).None? || Live(l[1..], key, now) == Live(l, key, now)
  {
  }

  lemma {:induction false} EvictForgets(cfg: Config, c: Cache, key: Bytes, now: nat)
    requires WellFormed(cfg, c)
    ensures LiveOf(cfg, Evict(cfg, c), key, now).None? ||
        LiveOf(cfg, Evict(cfg, c), key, now) == LiveOf(cfg, c, key, now)
    decreases StoredCount(c.shards)
  {
    if OverBudget(cfg, c) {
      BytesNeedEntries(c.shards);
      ScanFindsVictim(cfg, c);
      var v := Scan(cfg, c.shards, c.cursor, 0).value;
      TailForgets(c.shards[v], key, now);
      EvictForgets(cfg, EvictOne(cfg, c), key, now);
    }
  }

  // What a keyed operation leaves visible under each key of its shard.
  lemma OnShardLive(l: Recent, op: Op, now: nat, key: Bytes)
    requires DistinctKeys(l) && !op.Purge? && key != op.key
    ensures Live(OnShard(l, op, now).0, key, now) == Live(l, key, now)
  {
    FindWithout(l, op.key, key);
    match op
    case Get(k) =>
      if Live(l, k, now).Some? {
        FindAppend(Without(l, k), [Live(l, k, now).value], key);
      }
    case Set(k, v) => FindAppend(Without(l, k), [Entry(k, v, None)], key);
    case Expire(k, ttl) => FindWithDeadline(l, k, now + ttl, key);
    case _ =>
  }

  // Under its own key an operation acts like the map.
  lemma OwnKeyLikeMap(l: Recent, m: Plain, op: Op, now: nat)
    requires !op.Purge? && StoredOf(Live(l, op.key, now)) == Alive(m, op.key, now)
    ensures OnShard(l, op, now).1 == PlainStep(m, op, now).1
    ensures StoredOf(Live(OnShard(l, op, now).0, op.key, now)) == Alive(PlainStep(m, op, now).0, op.key, now)
  {
    FindWithout(l, op.key, op.key);
    match op
    case Get(k) =>
      if Live(l, k, now).Some? {
        FindAppend(Without(l, k), [Live(l, k, now).value], k);
      }
    case Set(k, v) => FindAppend(Without(l, k), [Entry(k, v, None)], k);
    case Expire(k, ttl) => FindWithDeadline(l, k, now + ttl, k);
    case _ =>
  }

  lemma OwnKeyMissing(l: Recent, op: Op, now: nat)
    requires !op.Purge? && !op.Set? && Live(l, op.key, now).None?
    ensures OnShard(l, op, now).1 == Miss(op)
    ensures Live(OnShard(l, op, now).0, op.key, now).None?
  {
    FindWithout(l, op.key, op.key);
  }

  lemma SetOwnKey(l: Recent, key: Bytes, value: Bytes, now: nat)
    ensures Live(SetIn(l, key, value), key, now) == Some(Entry(key, value, None))
  {
    FindWithout(l, key, key);
    FindAppend(Without(l, key), [Entry(key, value, None)], key);
  }

  lemma LockedSimulates(exact: bool, cfg: Config, c: Cache, m: Plain, op: Op, now: nat)
    requires WellFormed(cfg, c) && Simulates(exact, cfg, c, m, now) && !op.Purge?
    ensures Simulates(exact, cfg, Locked(cfg, c, op, now), PlainStep(m, op, now).0, now)
    ensures AnswerOk(exact, op, OnShard(c.shards[ShardOf(cfg, op.key)], op, now).1, PlainStep(m, op, now).1)
  {
    var l, c', m' := c.shards[ShardOf(cfg, op.key)], Locked(cfg, c, op, now), PlainStep(m, op, now).0;
    assert Agrees(exact, LiveOf(cfg, c, op.key, now), Alive(m, op.key, now));
    if StoredOf(Live(l, op.key, now)) == Alive(m, op.key, now) {
      OwnKeyLikeMap(l, m, op, now);
    } else if op.Set? {
      SetOwnKey(l, op.key, op.value, now);
    } else {
      OwnKeyMissing(l, op, now);
    }
    forall key ensures Agrees(exact, LiveOf(cfg, c', key, now), Alive(m', key, now)) {
      assert Agrees(exact, LiveOf(cfg, c, key, now), Alive(m, key, now));
      if key != op.key {
        OnShardLive(l, op, now, key);
      }
    }
  }

  lemma SweepSimulates(exact: bool, cfg: Config, c: Cache, m: Plain, asOf: nat, now: nat)
    requires WellFormed(cfg, c) && Simulates(exact, cfg, c, m, now) && asOf <= now
    ensures Simulates(exact, cfg, Step(cfg, c, Purge(asOf), now).0, m, now)
  {
    var c' := Step(cfg, c, Purge(asOf), now).0;
    forall key ensures Agrees(exact, LiveOf(cfg, c', key, now), Alive(m, key, now)) {
      assert Agrees(exact, LiveOf(cfg, c, key, now), Alive(m, key, now));
      var l := c.shards[ShardOf(cfg, key)];
      FindSurvivor(l, asOf, key);
      LiveLater(l, key, asOf, now);
    }
  }

  lemma StepSimulates(exact: bool, cfg: Config, c: Cache, m: Plain, op: Op, now: nat)
    requires WellFormed(cfg, c) && Simulates(exact, cfg, c, m, now) && !op.Purge?
    requires exact ==> Unlimited(cfg)
    ensures Simulates(exact, cfg, Step(cfg, c, op, now).0, PlainStep(m, op, now).0, now)
    ensures AnswerOk(exact, op, Step(cfg, c, op, now).1, PlainStep(m, op, now).1)
  {
    LockedSimulates(exact, cfg, c, m, op, now);
    if op.Set? {
      var c', m' := Locked(cfg, c, op, now), PlainStep(m, op, now).0;
      forall key ensures Agrees(exact, LiveOf(cfg, Evict(cfg, c'), key, now), Alive(m', key, now)) {
        assert Agrees(exact, LiveOf(cfg, c', key, now), Alive(m', key, now));
        EvictForgets(cfg, c', key, now);
      }
    }
  }

  // A deadline set at `now` is exact on every engine: until `now + ttl`, and not from then on, the key is
  // there with the value it had, and what is left of its time is told to the nanosecond.
  lemma DeadlineIsExact(cfg: Config, c: Cache, key: Bytes, ttl: nat, now: nat, later: nat)
    requires WellFormed(cfg, c) && now <= later
    requires Step(cfg, c, Expire(key, ttl), now).1 == Expiry(Applied)
    ensures var c' := Step(cfg, c, Expire(key, ttl), now).0;
            && LiveOf(cfg, c, key, now).Some?
            && Step(cfg, c', Get(key), later).1 ==
               Value(if later < now + ttl then Some(LiveOf(cfg, c, key, now).value.value) else None)
            && Step(cfg, c', Ttl(key), later).1 ==
               Remaining(if later < now + ttl then ExpiresIn(now + ttl - later) else Missing)
  {
    FindWithDeadline(c.shards[ShardOf(cfg, key)], key, now + ttl, key);
  }

  predicate AllOk(exact: bool, ops: seq<Op>, answers: seq<Answer>, plain: seq<Answer>) {
    && |answers| == |plain| == |ops|
    && forall i :: 0 <= i < |ops| ==> AnswerOk(exact, ops[i], answers[i], plain[i])
  }

  lemma ConsOk(exact: bool, op: Op, a: Answer, p: Answer, ops: seq<Op>, answers: seq<Answer>, plain: seq<Answer>)
    requires AnswerOk(exact, op, a, p) && AllOk(exact, ops, answers, plain)
    ensures AllOk(exact, [op] + ops, [a] + answers, [p] + plain)
  {
  }

  // Every run, from related states: answer for answer the map's, or (bounded) a miss.
  lemma {:induction false} RunSimulates(exact: bool, cfg: Config, c: Cache, m: Plain, events: seq<Event>, now: nat)
    requires WellFormed(cfg, c) && Simulates(exact, cfg, c, m, now) && Clocked(events, now)
    requires exact ==> Unlimited(cfg)
    ensures AllOk(exact, Asked(events), Answers(cfg, c, events), PlainAnswers(m, events))
    decreases |events|
  {
    if events != [] {
      var e, rest := events[0], events[1..];
      AgreesLater(exact, cfg, c, m, now, e.now);
      var (c', a) := Step(cfg, c, e.op, e.now);
      if e.op.Purge? {
        SweepSimulates(exact, cfg, c, m, e.op.asOf, e.now);
        RunSimulates(exact, cfg, c', m, rest, e.now);
        assert Answers(cfg, c, events) == Answers(cfg, c', rest) && Asked(events) == Asked(rest);
      } else {
        var (m', p) := PlainStep(m, e.op, e.now);
        StepSimulates(exact, cfg, c, m, e.op, e.now);
        RunSimulates(exact, cfg, c', m', rest, e.now);
        ConsOk(exact, e.op, a, p, Asked(rest), Answers(cfg, c', rest), PlainAnswers(m', rest));
        assert Asked(events) == [e.op] + Asked(rest);
      }
    }
  }

  lemma EmptySimulates(cfg: Config)
    requires Startable(cfg)
    ensures WellFormed(cfg, Empty(cfg))
    ensures Simulates(true, cfg, Empty(cfg), map[], 0)
  {
    EmptyWellFormed(cfg);
  }

  // With unlimited capacity the engine is observably the plain map: shard count, hash function, slot
  // reuse, lazy removal and sweeps at any moment cannot be told from the answers.
  lemma UnlimitedIsPlainMap(cfg: Config, events: seq<Event>)
    requires Startable(cfg) && Unlimited(cfg) && Clocked(events, 0)
    ensures WellFormed(cfg, Empty(cfg)) && Answers(cfg, Empty(cfg), events) == PlainAnswers(map[], events)
  {
    EmptySimulates(cfg);
    RunSimulates(true, cfg, Empty(cfg), map[], events, 0);
  }

  // With bounded capacity every answer is the map's or a miss; a value that comes back is never stale.
  lemma BoundedNeverStale(cfg: Config, events: seq<Event>, i: nat)
    requires Startable(cfg) && Clocked(events, 0) && i < |Asked(events)|
    ensures WellFormed(cfg, Empty(cfg))
    ensures |Answers(cfg, Empty(cfg), events)| == |PlainAnswers(map[], events)| == |Asked(events)|
    ensures var a := Answers(cfg, Empty(cfg), events)[i];
            a == PlainAnswers(map[], events)[i] || a == Miss(Asked(events)[i])
  {
    EmptySimulates(cfg);
    assert Simulates(false, cfg, Empty(cfg), map[], 0);
    RunSimulates(false, cfg, Empty(cfg), map[], events, 0);
    assert AnswerOk(false, Asked(events)[i], Answers(cfg, Empty(cfg), events)[i], PlainAnswers(map[], events)[i]);
  }
}
