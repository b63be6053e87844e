/**
 Command dispatch (hkv-server/src/server.rs): from parsed arguments to the bytes of one reply.

 `Dispatch` is the whole decision on values, with replies as RESP values; the methods at the end
 are the code over the engine class. The k-th engine call of a command reads the clock as `clock(k)`.
 */
module Server {
  import opened Base
  import opened Decimal
  import opened Recency
  import opened Cache
  import opened ClientResp
  import opened PlainStore
  import Engine
  import Lru

  // ---------------------------------------------------------------------------------------
  // Words.

  function Ascii(s: string): (r: Bytes)
    ensures |r| == |s|
    ensures forall i :: 0 <= i < |s| ==> r[i] == (s[i] as int % 256) as byte
  {
    seq(|s|, i requires 0 <= i < |s| => (s[i] as int % 256) as byte)
  }

  function ToLower(b: byte): byte {
    if 65 <= b <= 90 then b + 32 else b
  }

  predicate EqIgnoreAsciiCase(a: Bytes, b: Bytes) {
    |a| == |b| && forall i :: 0 <= i < |a| ==> ToLower(a[i]) == ToLower(b[i])
  }

  const PING: Bytes := [80, 73, 78, 71]
  const GET: Bytes := [71, 69, 84]
  const SET: Bytes := [83, 69, 84]
  const DEL: Bytes := [68, 69, 76]
  const EXPIRE: Bytes := [69, 88, 80, 73, 82, 69]
  const TTL: Bytes := [84, 84, 76]
  const INFO: Bytes := [73, 78, 70, 79]
  const EX: Bytes := [69, 88]

  function ErrReply(message: string): RespValue {
    Error(Ascii("ERR ") + Ascii(message))
  }

  function WrongArity(command: string): RespValue {
    ErrReply("wrong number of arguments for " + command)
  }

  // ---------------------------------------------------------------------------------------
  // Handlers.

  // `Panicked`: a deadline beyond what an Instant can hold; the connection dies without a reply.
  datatype Outcome = Replied(cache: Cache, reply: RespValue) | Panicked(cache: Cache)

  type Clock = nat -> nat

  // `remaining.as_secs() as i64`
  function SecondsAsI64(nanos: nat): int {
    var secs := nanos / NANOS_PER_SEC % WORD;
    if secs <= I64_MAX then secs else secs - WORD
  }

  function HandlePing(args: seq<Bytes>): RespValue {
    if |args| == 1 then Simple(Ascii("PONG"))
    else if |args| == 2 then Bulk(Some(args[1]))
    else WrongArity("PING")
  }

  function HandleGet(cfg: Config, c: Cache, args: seq<Bytes>, clock: Clock): (r: Outcome)
    requires WellFormed(cfg, c)
    ensures WellFormed(cfg, r.cache)
  {
    if |args| != 2 then Replied(c, WrongArity("GET"))
    else
      var (c', a) := Step(cfg, c, Get(args[1]), clock(0));
      Replied(c', Bulk(a.value))
  }

  // Two engine calls; on a bounded engine the set may already have evicted its own entry.
  function SetEx(cfg: Config, c: Cache, key: Bytes, value: Bytes, seconds: nat, clock: Clock): (r: Outcome)
    requires WellFormed(cfg, c)
    ensures WellFormed(cfg, r.cache)
  {
    var c' := Step(cfg, c, Set(key, value), clock(0)).0;
    var (c'', a) := Step(cfg, c', Expire(key, seconds * NANOS_PER_SEC), clock(1));
    match a.result
    case Applied => Replied(c'', Simple(Ascii("OK")))
    case NotFound => Replied(c'', ErrReply("engine error"))
    case Overflowed => Panicked(c'')
  }

  function HandleSet(cfg: Config, c: Cache, args: seq<Bytes>, clock: Clock): (r: Outcome)
    requires WellFormed(cfg, c)
    ensures WellFormed(cfg, r.cache)
  {
    if |args| < 3 then Replied(c, WrongArity("SET"))
    else if |args| == 3 then Replied(Step(cfg, c, Set(args[1], args[2]), clock(0)).0, Simple(Ascii("OK")))
    else if |args| == 5 && EqIgnoreAsciiCase(args[3], EX) then
      match Unsigned(args[4], USIZE_MAX)
      case None => Replied(c, ErrReply("invalid integer"))
      case Some(seconds) => SetEx(cfg, c, args[1], args[2], seconds, clock)
    else Replied(c, ErrReply("unsupported SET options"))
  }

  // Deletes the keys in turn and counts the ones that were live.
  function DeleteAll(cfg: Config, c: Cache, keys: seq<Bytes>, clock: Clock, k: nat): (r: (Cache, nat))
    requires WellFormed(cfg, c)
    ensures WellFormed(cfg, r.0) && r.1 <= |keys|
    decreases |keys|
  {
    if keys == [] then (c, 0)
    else
      var (c', a) := Step(cfg, c, Delete(keys[0]), clock(k));
      var (c'', n) := DeleteAll(cfg, c', keys[1..], clock, k + 1);
      (c'', n + (if a.removed then 1 else 0))
  }

  function HandleDel(cfg: Config, c: Cache, args: seq<Bytes>, clock: Clock): (r: Outcome)
    requires WellFormed(cfg, c)
    ensures WellFormed(cfg, r.cache)
  {
    if |args| < 2 then Replied(c, WrongArity("DEL"))
    else
      var (c', n) := DeleteAll(cfg, c, args[1..], clock, 0);
      Replied(c', Integer(n))
  }

  function HandleExpire(cfg: Config, c: Cache, args: seq<Bytes>, clock: Clock): (r: Outcome)
    requires WellFormed(cfg, c)
    ensures WellFormed(cfg, r.cache)
  {
    if |args| != 3 then Replied(c, WrongArity("EXPIRE"))
    else
      match Unsigned(args[2], USIZE_MAX)
      case None => Replied(c, ErrReply("invalid integer"))
      case Some(seconds) =>
        var (c', a) := Step(cfg, c, Expire(args[1], seconds * NANOS_PER_SEC), clock(0));
        match a.result
        case Applied => Replied(c', Integer(1))
        case NotFound => Replied(c', Integer(0))
        case Overflowed => Panicked(c')
  }

  function HandleTtl(cfg: Config, c: Cache, args: seq<Bytes>, clock: Clock): (r: Outcome)
    requires WellFormed(cfg, c)
    ensures WellFormed(cfg, r.cache)
  {
    if |args| != 2 then Replied(c, WrongArity("TTL"))
    else
      var (c', a) := Step(cfg, c, Ttl(args[1]), clock(0));
      Replied(c', Integer(match a.status
                          case Missing => -2
                          case NoExpiry => -1
                          case ExpiresIn(nanos) => SecondsAsI64(nanos)))
  }

  // `info` is whatever text the metrics produce.
  function Dispatch(cfg: Config, c: Cache, args: seq<Bytes>, clock: Clock, info: Bytes): (r: Outcome)
    requires WellFormed(cfg, c)
    ensures WellFormed(cfg, r.cache)
  {
    if args == [] then Replied(c, ErrReply("empty command"))
    else if EqIgnoreAsciiCase(args[0], PING) then Replied(c, HandlePing(args))
    else if EqIgnoreAsciiCase(args[0], GET) then HandleGet(cfg, c, args, clock)
    else if EqIgnoreAsciiCase(args[0], SET) then HandleSet(cfg, c, args, clock)
    else if EqIgnoreAsciiCase(args[0], DEL) then HandleDel(cfg, c, args, clock)
    else if EqIgnoreAsciiCase(args[0], EXPIRE) then HandleExpire(cfg, c, args, clock)
    else if EqIgnoreAsciiCase(args[0], TTL) then HandleTtl(cfg, c, args, clock)
    else if EqIgnoreAsciiCase(args[0], INFO) then Replied(c, Bulk(Some(info)))
    else Replied(c, ErrReply("unknown command"))
  }

  // ---------------------------------------------------------------------------------------
  // Every reply is well formed.

  // Values short enough for a Rust buffer, deadlines an Instant can hold.
  predicate Resident(l: Recent) {
    l == [] || (
      && |l[0].value| <= ISIZE_MAX
      && (l[0].deadline.Some? ==> l[0].deadline.value <= INSTANT_MAX)
      && Resident(l[1..]))
  }

  ghost predicate AllResident(c: Cache) {
    forall i :: 0 <= i < |c.shards| ==> Resident(c.shards[i])
  }

  lemma {:induction false} ResidentFind(l: Recent, key: Bytes)
    requires Resident(l) && Find(l, key).Some?
    ensures |Find(l, key).value.value| <= ISIZE_MAX
    ensures Find(l, key).value.deadline.Some? ==> Find(l, key).value.deadline.value <= INSTANT_MAX
  {
    if l[0].key != key {
      ResidentFind(l[1..], key);
    }
  }

  lemma {:induction false} ResidentWithout(l: Recent, key: Bytes)
    requires Resident(l)
    ensures Resident(Without(l, key))
  {
    if l != [] {
      ResidentWithout(l[1..], key);
      var w := Without(l[1..], key);
      assert Without(l, key) == if l[0].key == key then w else [l[0]] + w;
      assert ([l[0]] + w)[1..] == w;
    }
  }

  lemma {:induction false} ResidentAppend(l: Recent, e: Entry)
    requires Resident(l) && |e.value| <= ISIZE_MAX && (e.deadline.Some? ==> e.deadline.value <= INSTANT_MAX)
    ensures Resident(l + [e])
  {
    if l == [] {
      assert (l + [e])[1..] == [];
    } else {
      assert (l + [e])[1..] == l[1..] + [e];
      ResidentAppend(l[1..], e);
    }
  }

  lemma {:induction false} ResidentDeadline(l: Recent, key: Bytes, deadline: nat)
    requires Resident(l) && deadline <= INSTANT_MAX
    ensures Resident(WithDeadline(l, key, deadline))
  {
    if l != [] {
      ResidentDeadline(l[1..], key, deadline);
      assert WithDeadline(l, key, deadline)[1..] == WithDeadline(l[1..], key, deadline);
    }
  }

  lemma OnShardResident(l: Recent, op: Op, now: nat)
    requires Resident(l) && !op.Purge? && (op.Set? ==> |op.value| <= ISIZE_MAX)
    ensures Resident(OnShard(l, op, now).0)
  {
    ResidentWithout(l, op.key);
    match op
    case Get(key) =>
      if Live(l, key, now).Some? {
        ResidentFind(l, key);
        ResidentAppend(Without(l, key), Live(l, key, now).value);
      }
    case Set(key, value) => ResidentAppend(Without(l, key), Entry(key, value, None));
    case Expire(key, ttl) =>
      if now + ttl <= INSTANT_MAX {
        ResidentDeadline(l, key, now + ttl);
      }
    case _ =>
  }

  lemma {:induction false} ResidentSurvivors(l: Recent, now: nat)
    requires Resident(l)
    ensures Resident(Survivors(l, now))
  {
    if l != [] {
      ResidentSurvivors(l[1..], now);
      var w := Survivors(l[1..], now);
      assert Survivors(l, now) == if Expired(l[0], now) then w else [l[0]] + w;
      assert ([l[0]] + w)[1..] == w;
    }
  }

  lemma SweepResident(cfg: Config, c: Cache, asOf: nat, now: nat)
    requires WellFormed(cfg, c) && AllResident(c)
    ensures AllResident(Step(cfg, c, Purge(asOf), now).0)
  {
    forall i | 0 <= i < |c.shards| ensures Resident(Survivors(c.shards[i], asOf)) {
      ResidentSurvivors(c.shards[i], asOf);
    }
  }

  lemma {:induction false} EvictResident(cfg: Config, c: Cache)
    requires WellFormed(cfg, c) && AllResident(c)
    ensures AllResident(Evict(cfg, c))
    decreases StoredCount(c.shards)
  {
    if OverBudget(cfg, c) {
      BytesNeedEntries(c.shards);
      ScanFindsVictim(cfg, c);
      EvictResident(cfg, EvictOne(cfg, c));
    }
  }

  lemma StepResident(cfg: Config, c: Cache, op: Op, now: nat)
    requires WellFormed(cfg, c) && AllResident(c) && !op.Purge? && (op.Set? ==> |op.value| <= ISIZE_MAX)
    ensures AllResident(Step(cfg, c, op, now).0)
  {
    OnShardResident(c.shards[ShardOf(cfg, op.key)], op, now);
    if op.Set? {
      EvictResident(cfg, Locked(cfg, c, op, now));
    }
  }

  lemma {:induction false} DeleteAllResident(cfg: Config, c: Cache, keys: seq<Bytes>, clock: Clock, k: nat)
    requires WellFormed(cfg, c) && AllResident(c)
    ensures AllResident(DeleteAll(cfg, c, keys, clock, k).0)
    decreases |keys|
  {
    if keys != [] {
      StepResident(cfg, c, Delete(keys[0]), clock(k));
      DeleteAllResident(cfg, Step(cfg, c, Delete(keys[0]), clock(k)).0, keys[1..], clock, k + 1);
    }
  }

  lemma TextPrintable(s: string)
    requires forall i :: 0 <= i < |s| ==> s[i] as int % 256 != 10
    ensures LF !in Ascii(s)
  {
  }

  lemma ErrPrintable(message: string)
    requires forall i :: 0 <= i < |message| ==> message[i] as int % 256 != 10
    ensures Printable(ErrReply(message))
  {
    TextPrintable(message);
    TextPrintable("ERR ");
  }

  lemma ArityPrintable(command: string)
    requires forall i :: 0 <= i < |command| ==> command[i] as int % 256 != 10
    ensures Printable(WrongArity(command))
  {
    ErrPrintable("wrong number of arguments for " + command);
  }

  lemma SecondsInRange(nanos: nat)
    requires nanos <= INSTANT_MAX
    ensures SecondsAsI64(nanos) == nanos / NANOS_PER_SEC && 0 <= SecondsAsI64(nanos) <= I64_MAX
  {
  }

  lemma GetPrintable(cfg: Config, c: Cache, args: seq<Bytes>, clock: Clock)
    requires WellFormed(cfg, c) && AllResident(c)
    ensures Printable(HandleGet(cfg, c, args, clock).reply) && AllResident(HandleGet(cfg, c, args, clock).cache)
  {
    ArityPrintable("GET");
    if |args| == 2 {
      var l := c.shards[ShardOf(cfg, args[1])];
      StepResident(cfg, c, Get(args[1]), clock(0));
      if Live(l, args[1], clock(0)).Some? {
        ResidentFind(l, args[1]);
      }
    }
  }

  lemma SetTextsPrintable()
    ensures Printable(WrongArity("SET")) && Printable(Simple(Ascii("OK"))) && Printable(ErrReply("invalid integer"))
    ensures Printable(ErrReply("engine error")) && Printable(ErrReply("unsupported SET options"))
  {
    ArityPrintable("SET");
    TextPrintable("OK");
    ErrPrintable("invalid integer");
    ErrPrintable("engine error");
    ErrPrintable("unsupported SET options");
  }

  lemma SetPrintable(cfg: Config, c: Cache, args: seq<Bytes>, clock: Clock)
    requires WellFormed(cfg, c) && AllResident(c) && FitsArgs(args)
    ensures HandleSet(cfg, c, args, clock).Replied? ==> Printable(HandleSet(cfg, c, args, clock).reply)
    ensures AllResident(HandleSet(cfg, c, args, clock).cache)
  {
    SetTextsPrintable();
    if |args| >= 3 {
      StepResident(cfg, c, Set(args[1], args[2]), clock(0));
      if |args| == 5 && Unsigned(args[4], USIZE_MAX).Some? {
        var c' := Step(cfg, c, Set(args[1], args[2]), clock(0)).0;
        StepResident(cfg, c', Expire(args[1], Unsigned(args[4], USIZE_MAX).value * NANOS_PER_SEC), clock(1));
      }
    }
  }

  lemma DelPrintable(cfg: Config, c: Cache, args: seq<Bytes>, clock: Clock)
    requires WellFormed(cfg, c) && AllResident(c) && FitsArgs(args)
    ensures Printable(HandleDel(cfg, c, args, clock).reply) && AllResident(HandleDel(cfg, c, args, clock).cache)
  {
    ArityPrintable("DEL");
    if |args| >= 2 {
      DeleteAllResident(cfg, c, args[1..], clock, 0);
    }
  }

  lemma ExpirePrintable(cfg: Config, c: Cache, args: seq<Bytes>, clock: Clock)
    requires WellFormed(cfg, c) && AllResident(c)
    ensures HandleExpire(cfg, c, args, clock).Replied? ==> Printable(HandleExpire(cfg, c, args, clock).reply)
    ensures AllResident(HandleExpire(cfg, c, args, clock).cache)
  {
    ArityPrintable("EXPIRE");
    ErrPrintable("invalid integer");
    if |args| == 3 && Unsigned(args[2], USIZE_MAX).Some? {
      StepResident(cfg, c, Expire(args[1], Unsigned(args[2], USIZE_MAX).value * NANOS_PER_SEC), clock(0));
    }
  }

  lemma TtlPrintable(cfg: Config, c: Cache, args: seq<Bytes>, clock: Clock)
    requires WellFormed(cfg, c) && AllResident(c)
    ensures Printable(HandleTtl(cfg, c, args, clock).reply) && AllResident(HandleTtl(cfg, c, args, clock).cache)
  {
    ArityPrintable("TTL");
    if |args| == 2 {
      var l := c.shards[ShardOf(cfg, args[1])];
      StepResident(cfg, c, Ttl(args[1]), clock(0));
      if Live(l, args[1], clock(0)).Some? {
        ResidentFind(l, args[1]);
        var e := Live(l, args[1], clock(0)).value;
        if e.deadline.Some? {
          SecondsInRange(e.deadline.value - clock(0));
        }
      }
    }
  }

  lemma PingPrintable(args: seq<Bytes>)
    requires FitsArgs(args)
    ensures Printable(HandlePing(args))
  {
    ArityPrintable("PING");
    TextPrintable("PONG");
  }

  lemma DispatchPrintable(cfg: Config, c: Cache, args: seq<Bytes>, clock: Clock, info: Bytes)
    requires WellFormed(cfg, c) && AllResident(c) && FitsArgs(args) && |info| <= ISIZE_MAX
    ensures Dispatch(cfg, c, args, clock, info).Replied? ==> Printable(Dispatch(cfg, c, args, clock, info).reply)
    ensures AllResident(Dispatch(cfg, c, args, clock, info).cache)
  {
    if args == [] {
      ErrPrintable("empty command");
    } else if EqIgnoreAsciiCase(args[0], PING) {
      PingPrintable(args);
    } else if EqIgnoreAsciiCase(args[0], GET) {
      GetPrintable(cfg, c, args, clock);
    } else if EqIgnoreAsciiCase(args[0], SET) {
      SetPrintable(cfg, c, args, clock);
    } else if EqIgnoreAsciiCase(args[0], DEL) {
      DelPrintable(cfg, c, args, clock);
    } else if EqIgnoreAsciiCase(args[0], EXPIRE) {
      ExpirePrintable(cfg, c, args, clock);
    } else if EqIgnoreAsciiCase(args[0], TTL) {
      TtlPrintable(cfg, c, args, clock);
    } else {
      ErrPrintable("unknown command");
    }
  }

  // A number of seconds that, counted from `now`, ends beyond what an Instant can hold.
  predicate TooFar(numeral: Bytes, now: nat) {
    match Unsigned(numeral, USIZE_MAX)
    case None => false
    case Some(seconds) => now + seconds * NANOS_PER_SEC > INSTANT_MAX
  }

  // Such a deadline on a live key.
  predicate Unrepresentable(cfg: Config, c: Cache, key: Bytes, numeral: Bytes, now: nat)
    requires WellFormed(cfg, c)
  {
    LiveOf(cfg, c, key, now).Some? && TooFar(numeral, now)
  }

  // The commands that cost the client its connection: EXPIRE, or SET with EX if the new entry outlives
  // the eviction, with such a deadline.
  predicate CostsConnection(cfg: Config, c: Cache, args: seq<Bytes>, clock: Clock)
    requires WellFormed(cfg, c)
  {
    || (|args| == 3 && EqIgnoreAsciiCase(args[0], EXPIRE) && Unrepresentable(cfg, c, args[1], args[2], clock(0)))
    || (&& |args| == 5 && EqIgnoreAsciiCase(args[0], SET) && EqIgnoreAsciiCase(args[3], EX)
        && Unrepresentable(cfg, Step(cfg, c, Set(args[1], args[2]), clock(0)).0, args[1], args[4], clock(1)))
  }

  lemma ExpirePanics(cfg: Config, c: Cache, args: seq<Bytes>, clock: Clock)
    requires WellFormed(cfg, c)
    ensures HandleExpire(cfg, c, args, clock).Panicked? <==>
            |args| == 3 && Unrepresentable(cfg, c, args[1], args[2], clock(0))
  {
  }

  lemma SetPanics(cfg: Config, c: Cache, args: seq<Bytes>, clock: Clock)
    requires WellFormed(cfg, c)
    ensures HandleSet(cfg, c, args, clock).Panicked? <==>
            && |args| == 5 && EqIgnoreAsciiCase(args[3], EX)
            && Unrepresentable(cfg, Step(cfg, c, Set(args[1], args[2]), clock(0)).0, args[1], args[4], clock(1))
  {
  }

  lemma PanicsExactlyOnDeadlines(cfg: Config, c: Cache, args: seq<Bytes>, clock: Clock, info: Bytes)
    requires WellFormed(cfg, c)
    ensures Dispatch(cfg, c, args, clock, info).Panicked? <==> CostsConnection(cfg, c, args, clock)
  {
    ExpirePanics(cfg, c, args, clock);
    SetPanics(cfg, c, args, clock);
    if |args| > 0 && EqIgnoreAsciiCase(args[0], SET) {
      assert ToLower(args[0][0]) == ToLower(SET[0]) != ToLower(GET[0]);
    }
  }

  // SET with EX panics when its own entry is still there for the expire call. Whether it will be can be
  // read off the state before the command.

  predicate IsSetEx(args: seq<Bytes>) {
    |args| == 5 && EqIgnoreAsciiCase(args[0], SET) && EqIgnoreAsciiCase(args[3], EX)
  }

  predicate Kept(cfg: Config, c: Cache, key: Bytes, value: Bytes, now: nat, later: nat)
    requires WellFormed(cfg, c)
  {
    LiveOf(cfg, Step(cfg, c, Set(key, value), now).0, key, later).Some?
  }

  lemma SetExPanicsIfKept(cfg: Config, c: Cache, args: seq<Bytes>, clock: Clock, info: Bytes)
    requires WellFormed(cfg, c) && IsSetEx(args)
    ensures Dispatch(cfg, c, args, clock, info).Panicked? <==>
            Kept(cfg, c, args[1], args[2], clock(0), clock(1)) && TooFar(args[4], clock(1))
  {
    PanicsExactlyOnDeadlines(cfg, c, args, clock, info);
  }

  // The bytes stored once a set has its entry in place, before it evicts.
  function BytesWith(cfg: Config, c: Cache, key: Bytes, value: Bytes): nat
    requires WellFormed(cfg, c)
  {
    StoredBytes(Locked(cfg, c, Set(key, value), 0).shards)
  }

  // An entry that fits beside everything stored is kept, whatever the number of shards.
  lemma FittingIsKept(cfg: Config, c: Cache, key: Bytes, value: Bytes, now: nat, later: nat)
    requires WellFormed(cfg, c) && (Unlimited(cfg) || BytesWith(cfg, c, key, value) <= cfg.maxBytes)
    ensures Kept(cfg, c, key, value, now, later)
  {
    SetOwnKey(c.shards[ShardOf(cfg, key)], key, value, later);
  }

  lemma {:induction false} FoundFits(l: Recent, key: Bytes)
    requires Find(l, key).Some?
    ensures Size(Find(l, key).value) <= TotalSize(l)
  {
    if l[0].key != key {
      FoundFits(l[1..], key);
    }
  }

  // An entry larger than the whole budget is not, whatever the number of shards.
  lemma OversizeIsNotKept(cfg: Config, c: Cache, key: Bytes, value: Bytes, now: nat, later: nat)
    requires WellFormed(cfg, c) && !Unlimited(cfg) && |key| + |value| > cfg.maxBytes
    ensures !Kept(cfg, c, key, value, now, later)
  {
    var i, c', c'' := ShardOf(cfg, key), Locked(cfg, c, Set(key, value), now), Step(cfg, c, Set(key, value), now).0;
    if Kept(cfg, c, key, value, now, later) {
      EvictForgets(cfg, c', key, later);
      SetOwnKey(c.shards[i], key, value, later);
      FoundFits(c''.shards[i], key);
      StoredAtLeast(c''.shards, i);
      assert false;
    }
  }

  // With one shard that is all that can go wrong: the new entry is the last to be evicted.
  lemma OneShardKeepsWhatFits(cfg: Config, c: Cache, key: Bytes, value: Bytes, now: nat, later: nat)
    requires WellFormed(cfg, c) && |c.shards| == 1 && !Unlimited(cfg) && |key| + |value| <= cfg.maxBytes
    ensures Kept(cfg, c, key, value, now, later)
  {
    var e, c'' := Entry(key, value, None), Step(cfg, c, Set(key, value), now).0;
    var l := Without(c.shards[0], key) + [e];
    var k := Lru.SetKeepsLongestSuffix(cfg, c, key, value, now);
    if k == |l| {
      assert l[|l| - 1..] == [e];
      SingleSize(e);
      assert false;
    }
    var r := c''.shards[0];
    assert r == l[k..] && r[|r| - 1] == e;
    FindAt(r, |r| - 1);
  }

  // SET with EX on an unlimited engine.
  lemma UnlimitedSetExPanics(cfg: Config, c: Cache, args: seq<Bytes>, clock: Clock, info: Bytes)
    requires WellFormed(cfg, c) && Unlimited(cfg) && IsSetEx(args)
    ensures Dispatch(cfg, c, args, clock, info).Panicked? <==> TooFar(args[4], clock(1))
  {
    SetExPanicsIfKept(cfg, c, args, clock, info);
    FittingIsKept(cfg, c, args[1], args[2], clock(0), clock(1));
  }

  // On a bounded engine with one shard.
  lemma OneShardSetExPanics(cfg: Config, c: Cache, args: seq<Bytes>, clock: Clock, info: Bytes)
    requires WellFormed(cfg, c) && |c.shards| == 1 && !Unlimited(cfg) && IsSetEx(args)
    ensures Dispatch(cfg, c, args, clock, info).Panicked? <==>
            |args[1]| + |args[2]| <= cfg.maxBytes && TooFar(args[4], clock(1))
  {
    SetExPanicsIfKept(cfg, c, args, clock, info);
    if |args[1]| + |args[2]| <= cfg.maxBytes {
      OneShardKeepsWhatFits(cfg, c, args[1], args[2], clock(0), clock(1));
    } else {
      OversizeIsNotKept(cfg, c, args[1], args[2], clock(0), clock(1));
    }
  }

  // On any bounded engine, unless the set has to evict and the round-robin decides.
  lemma BoundedSetExPanics(cfg: Config, c: Cache, args: seq<Bytes>, clock: Clock, info: Bytes)
    requires WellFormed(cfg, c) && !Unlimited(cfg) && IsSetEx(args)
    ensures |args[1]| + |args[2]| > cfg.maxBytes ==> Dispatch(cfg, c, args, clock, info).Replied?
    ensures BytesWith(cfg, c, args[1], args[2]) <= cfg.maxBytes ==>
              (Dispatch(cfg, c, args, clock, info).Panicked? <==> TooFar(args[4], clock(1)))
  {
    SetExPanicsIfKept(cfg, c, args, clock, info);
    if |args[1]| + |args[2]| > cfg.maxBytes {
      OversizeIsNotKept(cfg, c, args[1], args[2], clock(0), clock(1));
    }
    if BytesWith(cfg, c, args[1], args[2]) <= cfg.maxBytes {
      FittingIsKept(cfg, c, args[1], args[2], clock(0), clock(1));
    }
  }

  // One such command, on any live key: the longest time to live there is.
  lemma LongestTtlPanics(cfg: Config, c: Cache, key: Bytes, clock: Clock, info: Bytes)
    requires WellFormed(cfg, c) && LiveOf(cfg, c, key, clock(0)).Some?
    ensures Dispatch(cfg, c, [EXPIRE, key, Digits(USIZE_MAX)], clock, info).Panicked?
  {
    UnsignedRoundTrip(USIZE_MAX, USIZE_MAX);
    PanicsExactlyOnDeadlines(cfg, c, [EXPIRE, key, Digits(USIZE_MAX)], clock, info);
  }

  // Any arguments in any engine state: the command is answered, exactly unless it costs the connection,
  // by one reply that the client reads back as itself, consuming exactly its bytes, whatever follows.
  lemma EveryCommandOneReply(cfg: Config, c: Cache, args: seq<Bytes>, clock: Clock, info: Bytes, rest: Bytes)
    requires WellFormed(cfg, c) && AllResident(c) && FitsArgs(args) && |info| <= ISIZE_MAX
    ensures var r := Dispatch(cfg, c, args, clock, info);
            && (r.Replied? <==> !CostsConnection(cfg, c, args, clock))
            && (r.Replied? ==> ReadValue(Print(r.reply) + rest) == Ok(r.reply, rest))
  {
    PanicsExactlyOnDeadlines(cfg, c, args, clock, info);
    DispatchPrintable(cfg, c, args, clock, info);
    var r := Dispatch(cfg, c, args, clock, info);
    if r.Replied? {
      PrintedReadsBack(r.reply, rest);
    }
  }

  // ---------------------------------------------------------------------------------------
  // DEL with several keys.

  function LiveKeys(cfg: Config, c: Cache, keys: seq<Bytes>, now: nat): set<Bytes>
    requires WellFormed(cfg, c)
  {
    set key | key in keys && LiveOf(cfg, c, key, now).Some?
  }

  lemma DeleteHides(cfg: Config, c: Cache, key: Bytes, other: Bytes, now: nat)
    requires WellFormed(cfg, c)
    ensures LiveOf(cfg, Step(cfg, c, Delete(key), now).0, other, now) ==
            if other == key then None else LiveOf(cfg, c, other, now)
  {
    FindWithout(c.shards[ShardOf(cfg, key)], key, other);
  }

  lemma LiveKeysAfterDelete(cfg: Config, c: Cache, keys: seq<Bytes>, now: nat)
    requires WellFormed(cfg, c) && keys != []
    ensures var rest := LiveKeys(cfg, Step(cfg, c, Delete(keys[0]), now).0, keys[1..], now);
            && keys[0] !in rest
            && LiveKeys(cfg, c, keys, now) == if LiveOf(cfg, c, keys[0], now).Some? then rest + {keys[0]} else rest
  {
    var key, c' := keys[0], Step(cfg, c, Delete(keys[0]), now).0;
    forall other ensures LiveOf(cfg, c', other, now) == if other == key then None else LiveOf(cfg, c, other, now) {
      DeleteHides(cfg, c, key, other, now);
    }
  }

  // At a fixed clock DEL counts the distinct live keys among its arguments, repeats or not.
  lemma {:induction false} DelCountsDistinctLiveKeys(cfg: Config, c: Cache, keys: seq<Bytes>, clock: Clock, now: nat,
                                                     k: nat)
    requires WellFormed(cfg, c) && forall i: nat :: clock(i) == now
    ensures DeleteAll(cfg, c, keys, clock, k).1 == |LiveKeys(cfg, c, keys, now)|
    decreases |keys|
  {
    if keys == [] {
      assert LiveKeys(cfg, c, keys, now) == {};
    } else {
      LiveKeysAfterDelete(cfg, c, keys, now);
      DelCountsDistinctLiveKeys(cfg, Step(cfg, c, Delete(keys[0]), now).0, keys[1..], clock, now, k + 1);
    }
  }

  // ---------------------------------------------------------------------------------------
  // The code: reply printers and handlers over the engine.

  method RespSimple(message: Bytes) returns (buf: Bytes)
    ensures buf == Print(Simple(message))
  {
    buf := [];
    buf := buf + [PLUS];
    buf := buf + message;
    buf := buf + CRLF;
  }

  method RespError(message: string) returns (buf: Bytes)
    ensures buf == Print(ErrReply(message))
  {
    buf := [];
    buf := buf + [DASH] + Ascii("ERR ");
    buf := buf + Ascii(message);
    buf := buf + CRLF;
  }

  method RespInteger(value: int) returns (buf: Bytes)
    ensures buf == Print(Integer(value))
  {
    buf := [];
    buf := buf + [COLON];
    buf := buf + Signed(value);
    buf := buf + CRLF;
  }

  method RespBulk(data: Bytes) returns (buf: Bytes)
    ensures buf == Print(Bulk(Some(data)))
  {
    buf := [];
    buf := buf + [DOLLAR];
    buf := buf + Signed(|data|);
    buf := buf + CRLF;
    buf := buf + data;
    buf := buf + CRLF;
  }

  method RespNull() returns (buf: Bytes)
    ensures buf == Print(Bulk(None))
  {
    buf := [36, 45, 49, 13, 10];
    assert Digits(1) == [49];
  }

  // is_error_response: the first byte tells an error reply from every other reply.
  predicate IsErrorResponse(response: Bytes) {
    response != [] && response[0] == DASH
  }

  lemma FirstByteTellsErrors(v: RespValue)
    ensures IsErrorResponse(Print(v)) <==> v.Error?
  {
  }

  // What a handler leaves behind: the state of the specification and the bytes of its reply, or none
  // after a panic.
  predicate Served(o: Outcome, c: Cache, r: Option<Bytes>) {
    && c == o.cache
    && r == if o.Replied? then Some(Print(o.reply)) else None
  }

  method ServePing(args: seq<Bytes>) returns (r: Bytes)
    ensures r == Print(HandlePing(args))
  {
    if |args| == 1 {
      r := RespSimple(Ascii("PONG"));
    } else if |args| == 2 {
      r := RespBulk(args[1]);
    } else {
      r := RespError("wrong number of arguments for " + "PING");
    }
  }

  method ServeGet(args: seq<Bytes>, engine: Engine.MemoryEngine, clock: Clock) returns (r: Option<Bytes>)
    requires engine.Valid()
    modifies engine, engine.shards
    ensures engine.Valid()
    ensures Served(HandleGet(engine.Cfg(), old(engine.Abs()), args, clock), engine.Abs(), r)
  {
    var reply;
    if |args| != 2 {
      reply := RespError("wrong number of arguments for " + "GET");
      return Some(reply);
    }
    var value := engine.Get(args[1], clock(0));
    if value.Some? {
      reply := RespBulk(value.value);
    } else {
      reply := RespNull();
    }
    r := Some(reply);
  }

  method ServeSet(args: seq<Bytes>, engine: Engine.MemoryEngine, clock: Clock) returns (r: Option<Bytes>)
    requires engine.Valid()
    modifies engine, engine.shards
    ensures engine.Valid()
    ensures Served(HandleSet(engine.Cfg(), old(engine.Abs()), args, clock), engine.Abs(), r)
  {
    var reply;
    if |args| < 3 {
      reply := RespError("wrong number of arguments for " + "SET");
    } else if |args| == 3 {
      engine.Set(args[1], args[2], clock(0));
      reply := RespSimple(Ascii("OK"));
    } else if |args| == 5 && EqIgnoreAsciiCase(args[3], EX) {
      var seconds := ParseUnsigned(args[4], USIZE_MAX);
      if seconds.None? {
        reply := RespError("invalid integer");
      } else {
        r := ServeSetEx(args[1], args[2], seconds.value, engine, clock);
        return;
      }
    } else {
      reply := RespError("unsupported SET options");
    }
    r := Some(reply);
  }

  // SET ... EX: two engine calls, with nothing in between when one caller is alone.
  method ServeSetEx(key: Bytes, value: Bytes, seconds: nat, engine: Engine.MemoryEngine, clock: Clock)
    returns (r: Option<Bytes>)
    requires engine.Valid()
    modifies engine, engine.shards
    ensures engine.Valid()
    ensures Served(SetEx(engine.Cfg(), old(engine.Abs()), key, value, seconds, clock), engine.Abs(), r)
  {
    engine.Set(key, value, clock(0));
    var expired := engine.Expire(key, seconds * NANOS_PER_SEC, clock(1));
    if expired.Overflowed? {
      return None;
    }
    var reply;
    if expired.NotFound? {
      reply := RespError("engine error");
    } else {
      reply := RespSimple(Ascii("OK"));
    }
    r := Some(reply);
  }

  method ServeDel(args: seq<Bytes>, engine: Engine.MemoryEngine, clock: Clock) returns (r: Option<Bytes>)
    requires engine.Valid()
    modifies engine, engine.shards
    ensures engine.Valid()
    ensures Served(HandleDel(engine.Cfg(), old(engine.Abs()), args, clock), engine.Abs(), r)
  {
    var reply;
    if |args| < 2 {
      reply := RespError("wrong number of arguments for " + "DEL");
      return Some(reply);
    }
    var removed := DeleteKeys(args[1..], engine, clock);
    reply := RespInteger(removed);
    r := Some(reply);
  }

  method DeleteKeys(keys: seq<Bytes>, engine: Engine.MemoryEngine, clock: Clock) returns (removed: nat)
    requires engine.Valid()
    modifies engine, engine.shards
    ensures engine.Valid()
    ensures engine.Abs() == DeleteAll(engine.Cfg(), old(engine.Abs()), keys, clock, 0).0
    ensures removed == DeleteAll(engine.Cfg(), old(engine.Abs()), keys, clock, 0).1
  {
    removed := 0;
    ghost var all := DeleteAll(engine.Cfg(), engine.Abs(), keys, clock, 0);
    assert keys[0..] == keys;
    for i := 0 to |keys|
      invariant engine.Valid()
      invariant DeleteAll(engine.Cfg(), engine.Abs(), keys[i..], clock, i).0 == all.0
      invariant DeleteAll(engine.Cfg(), engine.Abs(), keys[i..], clock, i).1 + removed == all.1
    {
      assert keys[i..][1..] == keys[i + 1..];
      var live := engine.Delete(keys[i], clock(i));
      if live {
        removed := removed + 1;
      }
    }
  }

  method ServeExpire(args: seq<Bytes>, engine: Engine.MemoryEngine, clock: Clock) returns (r: Option<Bytes>)
    requires engine.Valid()
    modifies engine, engine.shards
    ensures engine.Valid()
    ensures Served(HandleExpire(engine.Cfg(), old(engine.Abs()), args, clock), engine.Abs(), r)
  {
    var reply;
    if |args| != 3 {
      reply := RespError("wrong number of arguments for " + "EXPIRE");
      return Some(reply);
    }
    var seconds := ParseUnsigned(args[2], USIZE_MAX);
    if seconds.None? {
      reply := RespError("invalid integer");
      return Some(reply);
    }
    var result := engine.Expire(args[1], seconds.value * NANOS_PER_SEC, clock(0));
    if result.Overflowed? {
      return None;
    }
    reply := RespInteger(if result.Applied? then 1 else 0);
    r := Some(reply);
  }

  method ServeTtl(args: seq<Bytes>, engine: Engine.MemoryEngine, clock: Clock) returns (r: Option<Bytes>)
    requires engine.Valid()
    modifies engine, engine.shards
    ensures engine.Valid()
    ensures Served(HandleTtl(engine.Cfg(), old(engine.Abs()), args, clock), engine.Abs(), r)
  {
    var reply;
    if |args| != 2 {
      reply := RespError("wrong number of arguments for " + "TTL");
      return Some(reply);
    }
    var status := engine.Ttl(args[1], clock(0));
    match status {
      case Missing => reply := RespInteger(-2);
      case NoExpiry => reply := RespInteger(-1);
      case ExpiresIn(nanos) => reply := RespInteger(SecondsAsI64(nanos));
    }
    r := Some(reply);
  }

  // dispatch_command over the engine.
  method DispatchCommand(args: seq<Bytes>, engine: Engine.MemoryEngine, clock: Clock, info: Bytes)
    returns (r: Option<Bytes>)
    requires engine.Valid()
    modifies engine, engine.shards
    ensures engine.Valid()
    ensures Served(Dispatch(engine.Cfg(), old(engine.Abs()), args, clock, info), engine.Abs(), r)
  {
    var reply;
    if args == [] {
      reply := RespError("empty command");
      return Some(reply);
    }
    if EqIgnoreAsciiCase(args[0], PING) {
      reply := ServePing(args);
      return Some(reply);
    }
    if EqIgnoreAsciiCase(args[0], GET) {
      r := ServeGet(args, engine, clock);
      return;
    }
    if EqIgnoreAsciiCase(args[0], SET) {
      r := ServeSet(args, engine, clock);
      return;
    }
    if EqIgnoreAsciiCase(args[0], DEL) {
      r := ServeDel(args, engine, clock);
      return;
    }
    if EqIgnoreAsciiCase(args[0], EXPIRE) {
      r := ServeExpire(args, engine, clock);
      return;
    }
    if EqIgnoreAsciiCase(args[0], TTL) {
      r := ServeTtl(args, engine, clock);
      return;
    }
    if EqIgnoreAsciiCase(args[0], INFO) {
      reply := RespBulk(info);
      return Some(reply);
    }
    reply := RespError("unknown command");
    r := Some(reply);
  }
}
