/**
 The whole path of a client call (hkv-client/src/client.rs): arguments, command bytes, the server's
 parser, dispatch, reply bytes, the client's reader, and the client's reading of the reply.

 On values, every call over the wire is the engine call itself; over an unlimited engine whole
 sessions are indistinguishable from a plain map, with deadlines and TTLs in whole seconds.
 */
module EndToEnd {
  import opened Base
  import opened Decimal
  import opened Recency
  import opened Cache
  import opened PlainStore
  import opened ClientResp
  import opened Server
  import ServerParser

  // Durations are nanoseconds.
  datatype Call =
    | CallGet(key: Bytes)
    | CallSet(key: Bytes, value: Bytes)
    | CallSetTtl(key: Bytes, value: Bytes, ttl: nat)
    | CallDelete(key: Bytes)
    | CallExpire(key: Bytes, ttl: nat)
    | CallTtl(key: Bytes)

  datatype ClientTtl = TtlMissing | TtlNone | TtlSeconds(seconds: nat)

  datatype Result =
    | Fetched(data: Option<Bytes>)
    | Acknowledged
    | Deleted(any: bool)
    | ExpirySet(applied: bool)
    | TtlIs(ttl: ClientTtl)
    | ServerError(message: Bytes)
    | UnexpectedResponse
    | Broken

  function Seconds(ttl: nat): nat {
    ttl / NANOS_PER_SEC
  }

  // What the types of the client's API guarantee about its arguments.
  predicate FitsCall(call: Call) {
    && |call.key| <= ISIZE_MAX
    && (call.CallSet? || call.CallSetTtl? ==> |call.value| <= ISIZE_MAX)
    && (call.CallSetTtl? || call.CallExpire? ==> Seconds(call.ttl) <= USIZE_MAX)
  }

  function ArgsOf(call: Call): seq<Bytes> {
    match call
    case CallGet(key) => [GET, key]
    case CallSet(key, value) => [SET, key, value]
    case CallSetTtl(key, value, ttl) => [SET, key, value, EX, Digits(Seconds(ttl))]
    case CallDelete(key) => [DEL, key]
    case CallExpire(key, ttl) => [EXPIRE, key, Digits(Seconds(ttl))]
    case CallTtl(key) => [TTL, key]
  }

  // How the client reads the reply to its call.
  function Interpret(call: Call, v: RespValue): Result {
    if v.Error? then ServerError(v.text)
    else
      match call
      case CallGet(_) => if v.Bulk? then Fetched(v.data) else UnexpectedResponse
      case CallSet(_, _) => if v.Simple? then Acknowledged else UnexpectedResponse
      case CallSetTtl(_, _, _) => if v.Simple? then Acknowledged else UnexpectedResponse
      case CallDelete(_) => if v.Integer? then Deleted(v.n > 0) else UnexpectedResponse
      case CallExpire(_, _) => if v.Integer? then ExpirySet(v.n == 1) else UnexpectedResponse
      case CallTtl(_) =>
        if !v.Integer? then UnexpectedResponse
        else if v.n == -2 then TtlIs(TtlMissing)
        else if v.n == -1 then TtlIs(TtlNone)
        else if v.n >= 0 then TtlIs(TtlSeconds(v.n))
        else UnexpectedResponse
  }

  // A server connection between two calls: the parser and its unread bytes.
  datatype Conn = Conn(s: ServerParser.Suspended, buf: Bytes)

  const FRESH := Conn(ServerParser.AtStart, [])

  // One call over the wire. A panic on the server breaks the connection; the next call uses a new one.
  function Exchange(cfg: Config, c: Cache, conn: Conn, call: Call, clock: Clock, info: Bytes)
    : (r: (Cache, Conn, Result))
    requires WellFormed(cfg, c) && ServerParser.Sound(conn.s)
    ensures WellFormed(cfg, r.0) && ServerParser.Sound(r.1.s)
  {
    var session := ServerParser.Drain(conn.s, conn.buf + Encode(ArgsOf(call)));
    if |session.cmds| != 1 || !session.end.Waiting? then (c, FRESH, Broken)
    else
      match Dispatch(cfg, c, session.cmds[0], clock, info)
      case Panicked(c') => (c', FRESH, Broken)
      case Replied(c', v) =>
        match ReadValue(Print(v))
        case Ok(v', rest) =>
          (c', Conn(session.end.s, session.end.buf), if rest == [] then Interpret(call, v') else Broken)
        case Err(_) => (c', FRESH, Broken)
  }

  // ---------------------------------------------------------------------------------------
  // The same call made on the engine directly.

  function LastOp(call: Call): Op {
    match call
    case CallGet(key) => Get(key)
    case CallSet(key, value) => Set(key, value)
    case CallSetTtl(key, _, ttl) => Expire(key, Seconds(ttl) * NANOS_PER_SEC)
    case CallDelete(key) => Delete(key)
    case CallExpire(key, ttl) => Expire(key, Seconds(ttl) * NANOS_PER_SEC)
    case CallTtl(key) => Ttl(key)
  }

  // What an engine answer to the last operation of a call means to the client.
  function Meaning(call: Call, a: Answer): Result {
    match a
    case Value(v) => Fetched(v)
    case Done => Acknowledged
    case Removed(b) => Deleted(b)
    case Expiry(Overflowed) => Broken
    case Expiry(Applied) => if call.CallSetTtl? then Acknowledged else ExpirySet(true)
    case Expiry(NotFound) => if call.CallSetTtl? then ServerError(ErrReply("engine error").text) else ExpirySet(false)
    case Remaining(Missing) => TtlIs(TtlMissing)
    case Remaining(NoExpiry) => TtlIs(TtlNone)
    case Remaining(ExpiresIn(nanos)) => TtlIs(TtlSeconds(Seconds(nanos)))
    case Swept(_) => Broken
  }

  function Before(cfg: Config, c: Cache, call: Call, clock: Clock): (r: Cache)
    requires WellFormed(cfg, c)
    ensures WellFormed(cfg, r)
  {
    if call.CallSetTtl? then Step(cfg, c, Set(call.key, call.value), clock(0)).0 else c
  }

  function LastTime(call: Call, clock: Clock): nat {
    if call.CallSetTtl? then clock(1) else clock(0)
  }

  function Direct(cfg: Config, c: Cache, call: Call, clock: Clock): (r: (Cache, Result))
    requires WellFormed(cfg, c)
    ensures WellFormed(cfg, r.0)
  {
    var (c', a) := Step(cfg, Before(cfg, c, call, clock), LastOp(call), LastTime(call, clock));
    (c', Meaning(call, a))
  }

  // ---------------------------------------------------------------------------------------
  // Over the wire is direct.

  lemma DigitsFit(ttl: nat)
    requires Seconds(ttl) <= USIZE_MAX
    ensures Unsigned(Digits(Seconds(ttl)), USIZE_MAX) == Some(Seconds(ttl))
    ensures |Digits(Seconds(ttl))| <= 20
  {
    UnsignedRoundTrip(Seconds(ttl), USIZE_MAX);
    DigitsFitBuffer(Seconds(ttl));
  }

  lemma CallFits(call: Call)
    requires FitsCall(call)
    ensures FitsArgs(ArgsOf(call))
  {
    if call.CallSetTtl? || call.CallExpire? {
      DigitsFit(call.ttl);
    }
  }

  lemma Words()
    ensures !EqIgnoreAsciiCase(GET, PING)
    ensures !EqIgnoreAsciiCase(SET, PING) && !EqIgnoreAsciiCase(SET, GET)
    ensures !EqIgnoreAsciiCase(DEL, PING) && !EqIgnoreAsciiCase(DEL, GET) && !EqIgnoreAsciiCase(DEL, SET)
    ensures !EqIgnoreAsciiCase(EXPIRE, PING) && !EqIgnoreAsciiCase(EXPIRE, GET)
    ensures !EqIgnoreAsciiCase(EXPIRE, SET) && !EqIgnoreAsciiCase(EXPIRE, DEL)
    ensures !EqIgnoreAsciiCase(TTL, PING) && !EqIgnoreAsciiCase(TTL, GET) && !EqIgnoreAsciiCase(TTL, SET)
    ensures !EqIgnoreAsciiCase(TTL, DEL) && !EqIgnoreAsciiCase(TTL, EXPIRE)
  {
    assert ToLower(SET[0]) != ToLower(GET[0]);
    assert ToLower(DEL[0]) != ToLower(GET[0]) && ToLower(DEL[0]) != ToLower(SET[0]);
    assert ToLower(TTL[0]) != ToLower(GET[0]) && ToLower(TTL[0]) != ToLower(SET[0]);
    assert ToLower(TTL[0]) != ToLower(DEL[0]);
  }

  // The handler that answers each call.
  function Handled(cfg: Config, c: Cache, call: Call, clock: Clock): Outcome
    requires WellFormed(cfg, c)
  {
    match call
    case CallGet(_) => HandleGet(cfg, c, ArgsOf(call), clock)
    case CallSet(_, _) => HandleSet(cfg, c, ArgsOf(call), clock)
    case CallSetTtl(_, _, _) => HandleSet(cfg, c, ArgsOf(call), clock)
    case CallDelete(_) => HandleDel(cfg, c, ArgsOf(call), clock)
    case CallExpire(_, _) => HandleExpire(cfg, c, ArgsOf(call), clock)
    case CallTtl(_) => HandleTtl(cfg, c, ArgsOf(call), clock)
  }

  lemma DispatchFindsHandler(cfg: Config, c: Cache, call: Call, clock: Clock, info: Bytes)
    requires WellFormed(cfg, c)
    ensures Dispatch(cfg, c, ArgsOf(call), clock, info) == Handled(cfg, c, call, clock)
  {
    Words();
  }

  // What the client makes of the handler's outcome is what the engine call means.
  predicate Conveys(o: Outcome, call: Call, d: (Cache, Result)) {
    && o.cache == d.0
    && d.1 == if o.Replied? then Interpret(call, o.reply) else Broken
  }

  lemma DeleteHandled(cfg: Config, c: Cache, key: Bytes, clock: Clock)
    requires WellFormed(cfg, c)
    ensures Conveys(HandleDel(cfg, c, [DEL, key], clock), CallDelete(key), Direct(cfg, c, CallDelete(key), clock))
  {
    assert [DEL, key][1..] == [key];
    var (c', a) := Step(cfg, c, Delete(key), clock(0));
    assert [key][1..] == [];
    assert DeleteAll(cfg, c', [], clock, 1) == (c', 0);
    assert DeleteAll(cfg, c, [key], clock, 0) == (c', if a.removed then 1 else 0);
  }

  lemma TtlHandled(cfg: Config, c: Cache, key: Bytes, clock: Clock)
    requires WellFormed(cfg, c) && AllResident(c)
    ensures Conveys(HandleTtl(cfg, c, [TTL, key], clock), CallTtl(key), Direct(cfg, c, CallTtl(key), clock))
  {
    var l := c.shards[ShardOf(cfg, key)];
    if Live(l, key, clock(0)).Some? {
      ResidentFind(l, key);
      var e := Live(l, key, clock(0)).value;
      if e.deadline.Some? {
        SecondsInRange(e.deadline.value - clock(0));
      }
    }
  }

  lemma SetTtlHandled(cfg: Config, c: Cache, key: Bytes, value: Bytes, ttl: nat, clock: Clock)
    requires WellFormed(cfg, c) && Seconds(ttl) <= USIZE_MAX
    ensures Conveys(HandleSet(cfg, c, ArgsOf(CallSetTtl(key, value, ttl)), clock), CallSetTtl(key, value, ttl),
                    Direct(cfg, c, CallSetTtl(key, value, ttl), clock))
  {
    DigitsFit(ttl);
    assert EqIgnoreAsciiCase(EX, EX);
    var args := ArgsOf(CallSetTtl(key, value, ttl));
    assert HandleSet(cfg, c, args, clock) == SetEx(cfg, c, key, value, Seconds(ttl), clock);
  }

  lemma ExpireHandled(cfg: Config, c: Cache, key: Bytes, ttl: nat, clock: Clock)
    requires WellFormed(cfg, c) && Seconds(ttl) <= USIZE_MAX
    ensures Conveys(HandleExpire(cfg, c, ArgsOf(CallExpire(key, ttl)), clock), CallExpire(key, ttl),
                    Direct(cfg, c, CallExpire(key, ttl), clock))
  {
    DigitsFit(ttl);
  }

  lemma HandledIsDirect(cfg: Config, c: Cache, call: Call, clock: Clock)
    requires WellFormed(cfg, c) && AllResident(c) && FitsCall(call)
    ensures Conveys(Handled(cfg, c, call, clock), call, Direct(cfg, c, call, clock))
  {
    match call
    case CallDelete(key) => DeleteHandled(cfg, c, key, clock);
    case CallTtl(key) => TtlHandled(cfg, c, key, clock);
    case CallSetTtl(key, value, ttl) => SetTtlHandled(cfg, c, key, value, ttl, clock);
    case CallExpire(key, ttl) => ExpireHandled(cfg, c, key, ttl, clock);
    case _ =>
  }

  lemma CommandArrives(args: seq<Bytes>)
    requires FitsArgs(args)
    ensures ServerParser.Drain(ServerParser.AtStart, [] + Encode(args))
         == ServerParser.Session([args], ServerParser.Waiting(ServerParser.AtStart, []))
  {
    assert EncodeAll([args]) + [] == [] + Encode(args) by {
      assert [args][1..] == [];
    }
    PipelineRoundTrip([args], []);
    assert [args] + [] == [args];
  }

  // Any call, any engine, bounded or not: over the wire it returns what the engine call returns, leaves
  // the engine where the engine call leaves it, and leaves nothing unread on the connection.
  lemma WireIsDirect(cfg: Config, c: Cache, call: Call, clock: Clock, info: Bytes)
    requires WellFormed(cfg, c) && AllResident(c) && FitsCall(call) && |info| <= ISIZE_MAX
    ensures var r := Exchange(cfg, c, FRESH, call, clock, info);
            && r.0 == Direct(cfg, c, call, clock).0
            && r.1 == FRESH
            && r.2 == Direct(cfg, c, call, clock).1
            && AllResident(r.0)
  {
    CallFits(call);
    CommandArrives(ArgsOf(call));
    DispatchFindsHandler(cfg, c, call, clock, info);
    HandledIsDirect(cfg, c, call, clock);
    DispatchPrintable(cfg, c, ArgsOf(call), clock, info);
    var o := Dispatch(cfg, c, ArgsOf(call), clock, info);
    if o.Replied? {
      EveryCommandOneReply(cfg, c, ArgsOf(call), clock, info, []);
      assert Print(o.reply) + [] == Print(o.reply);
    }
  }

  // ---------------------------------------------------------------------------------------
  // Pipelines.

  // The replies to commands taken in order, up to the first that panics, and the engine behind them.
  datatype Transcript = Transcript(replies: seq<RespValue>, completed: bool, cache: Cache)

  // `clocks(k)` is the clock of the k-th command, `infos(k)` the metrics text at its time.
  function Respond(cfg: Config, c: Cache, cmds: seq<seq<Bytes>>, clocks: nat -> Clock, k: nat,
                   infos: nat -> Bytes): (r: Transcript)
    requires WellFormed(cfg, c)
    ensures WellFormed(cfg, r.cache)
    ensures |r.replies| <= |cmds| && (r.completed <==> |r.replies| == |cmds|)
    decreases |cmds|
  {
    if cmds == [] then Transcript([], true, c)
    else
      match Dispatch(cfg, c, cmds[0], clocks(k), infos(k))
      case Panicked(c') => Transcript([], false, c')
      case Replied(c', v) =>
        var rest := Respond(cfg, c', cmds[1..], clocks, k + 1, infos);
        rest.(replies := [v] + rest.replies)
  }

  // All that is written for a session: one reply for each command, and the error reply that closes the
  // connection if the stream is malformed.
  function RespondAll(cfg: Config, c: Cache, session: ServerParser.Session, clocks: nat -> Clock, k: nat,
                      infos: nat -> Bytes): (r: Transcript)
    requires WellFormed(cfg, c)
    ensures WellFormed(cfg, r.cache)
  {
    var r := Respond(cfg, c, session.cmds, clocks, k, infos);
    if r.completed && session.end.Failed? then r.(replies := r.replies + [ErrReply("protocol error")]) else r
  }

  // Everything a connection writes for the reads `chunks`.
  function Written(cfg: Config, c: Cache, chunks: seq<Bytes>, clocks: nat -> Clock, infos: nat -> Bytes)
    : seq<RespValue>
    requires WellFormed(cfg, c)
  {
    RespondAll(cfg, c, ServerParser.Feed(ServerParser.AtStart, [], chunks), clocks, 0, infos).replies
  }

  ghost predicate InfosFit(infos: nat -> Bytes) {
    forall k: nat :: |infos(k)| <= ISIZE_MAX
  }

  lemma {:induction false} RespondPrintable(cfg: Config, c: Cache, cmds: seq<seq<Bytes>>, clocks: nat -> Clock,
                                            k: nat, infos: nat -> Bytes)
    requires WellFormed(cfg, c) && AllResident(c) && InfosFit(infos)
    requires forall i :: 0 <= i < |cmds| ==> FitsArgs(cmds[i])
    ensures forall i :: 0 <= i < |Respond(cfg, c, cmds, clocks, k, infos).replies| ==>
              Printable(Respond(cfg, c, cmds, clocks, k, infos).replies[i])
    decreases |cmds|
  {
    if cmds != [] {
      DispatchPrintable(cfg, c, cmds[0], clocks(k), infos(k));
      var o := Dispatch(cfg, c, cmds[0], clocks(k), infos(k));
      if o.Replied? {
        RespondPrintable(cfg, o.cache, cmds[1..], clocks, k + 1, infos);
      }
    }
  }

  lemma FeedIsDrain(chunks: seq<Bytes>)
    ensures ServerParser.Feed(ServerParser.AtStart, [], chunks)
         == ServerParser.Drain(ServerParser.AtStart, Concat(chunks))
  {
    ServerParser.ChunkingIrrelevant(ServerParser.AtStart, [], chunks);
    assert [] + Concat(chunks) == Concat(chunks);
  }

  lemma ProtocolErrorPrintable()
    ensures Printable(ErrReply("protocol error"))
  {
    ErrPrintable("protocol error");
  }

  lemma WrittenPrintable(cfg: Config, c: Cache, chunks: seq<Bytes>, clocks: nat -> Clock, infos: nat -> Bytes)
    requires WellFormed(cfg, c) && AllResident(c) && InfosFit(infos)
    requires var cmds := ServerParser.Drain(ServerParser.AtStart, Concat(chunks)).cmds;
             forall i :: 0 <= i < |cmds| ==> FitsArgs(cmds[i])
    ensures var replies := Written(cfg, c, chunks, clocks, infos);
            forall i :: 0 <= i < |replies| ==> Printable(replies[i])
  {
    var session := ServerParser.Feed(ServerParser.AtStart, [], chunks);
    FeedIsDrain(chunks);
    RespondPrintable(cfg, c, session.cmds, clocks, 0, infos);
    ProtocolErrorPrintable();
  }

  // Whatever arrives and however it is cut, what the server writes decodes to exactly the replies, in
  // the order of the commands, with nothing left over.
  lemma StreamOfRepliesDecodes(cfg: Config, c: Cache, chunks: seq<Bytes>, clocks: nat -> Clock, infos: nat -> Bytes)
    requires WellFormed(cfg, c) && AllResident(c) && InfosFit(infos)
    requires var cmds := ServerParser.Drain(ServerParser.AtStart, Concat(chunks)).cmds;
             forall i :: 0 <= i < |cmds| ==> FitsArgs(cmds[i])
    ensures var replies := Written(cfg, c, chunks, clocks, infos);
            ReadItems(PrintAll(replies), |replies|) == Ok(replies, [])
  {
    var replies := Written(cfg, c, chunks, clocks, infos);
    WrittenPrintable(cfg, c, chunks, clocks, infos);
    PrintedItemsReadBack(replies, []);
    assert PrintAll(replies) + [] == PrintAll(replies);
  }

  // ---------------------------------------------------------------------------------------
  // Sessions.

  // A client call with the clock readings its engine calls take, or a background sweep.
  datatype Item = Ask(call: Call, t0: nat, t1: nat) | Sweep(asOf: nat, now: nat)

  function ClockOf(item: Item): Clock
    requires item.Ask?
  {
    k => if k == 0 then item.t0 else item.t1
  }

  function EndsAt(item: Item): nat {
    match item
    case Ask(call, t0, t1) => if call.CallSetTtl? then t1 else t0
    case Sweep(_, now) => now
  }

  predicate ItemClocked(item: Item, start: nat) {
    match item
    case Ask(call, t0, t1) => start <= t0 <= t1 && FitsCall(call)
    case Sweep(asOf, now) => start <= now && asOf <= now
  }

  predicate SessionClocked(items: seq<Item>, start: nat) {
    items != [] ==> ItemClocked(items[0], start) && SessionClocked(items[1..], EndsAt(items[0]))
  }

  // What a client sees that makes its calls over one connection, renewed when it breaks.
  function Remote(cfg: Config, c: Cache, conn: Conn, items: seq<Item>, info: Bytes): seq<Result>
    requires WellFormed(cfg, c) && ServerParser.Sound(conn.s)
    decreases |items|
  {
    if items == [] then []
    else
      match items[0]
      case Ask(call, _, _) =>
        var (c', conn', r) := Exchange(cfg, c, conn, call, ClockOf(items[0]), info);
        [r] + Remote(cfg, c', conn', items[1..], info)
      case Sweep(asOf, now) => Remote(cfg, Step(cfg, c, Purge(asOf), now).0, conn, items[1..], info)
  }

  // The same calls on a plain map, which knows no connections and no sweeps.
  function PlainCall(m: Plain, call: Call, clock: Clock): (Plain, Result) {
    var m' := if call.CallSetTtl? then PlainStep(m, Set(call.key, call.value), clock(0)).0 else m;
    var (m'', a) := PlainStep(m', LastOp(call), LastTime(call, clock));
    (m'', Meaning(call, a))
  }

  function Local(m: Plain, items: seq<Item>): seq<Result>
    decreases |items|
  {
    if items == [] then []
    else
      match items[0]
      case Ask(call, _, _) =>
        var (m', r) := PlainCall(m, call, ClockOf(items[0]));
        [r] + Local(m', items[1..])
      case Sweep(_, _) => Local(m, items[1..])
  }

  function Calls(items: seq<Item>): seq<Call> {
    if items == [] then []
    else (if items[0].Ask? then [items[0].call] else []) + Calls(items[1..])
  }

  // On a bounded engine a call may also come back as if its key were not there.
  predicate ResultOk(exact: bool, call: Call, r: Result, plain: Result) {
    r == plain || (!exact && r == Meaning(call, Miss(LastOp(call))))
  }

  predicate ResultsOk(exact: bool, calls: seq<Call>, rs: seq<Result>, plain: seq<Result>) {
    && |rs| == |plain| == |calls|
    && forall i :: 0 <= i < |calls| ==> ResultOk(exact, calls[i], rs[i], plain[i])
  }

  lemma ConsResults(exact: bool, call: Call, r: Result, p: Result, calls: seq<Call>, rs: seq<Result>,
                    plain: seq<Result>)
    requires ResultOk(exact, call, r, p) && ResultsOk(exact, calls, rs, plain)
    ensures ResultsOk(exact, [call] + calls, [r] + rs, [p] + plain)
  {
  }

  lemma DirectSimulates(exact: bool, cfg: Config, c: Cache, m: Plain, item: Item, now: nat)
    requires WellFormed(cfg, c) && Simulates(exact, cfg, c, m, now) && (exact ==> Unlimited(cfg))
    requires item.Ask? && ItemClocked(item, now)
    ensures ResultOk(exact, item.call, Direct(cfg, c, item.call, ClockOf(item)).1,
                     PlainCall(m, item.call, ClockOf(item)).1)
    ensures Simulates(exact, cfg, Direct(cfg, c, item.call, ClockOf(item)).0,
                      PlainCall(m, item.call, ClockOf(item)).0, EndsAt(item))
  {
    var call := item.call;
    AgreesLater(exact, cfg, c, m, now, item.t0);
    if call.CallSetTtl? {
      var set_ := Set(call.key, call.value);
      StepSimulates(exact, cfg, c, m, set_, item.t0);
      var c', m' := Step(cfg, c, set_, item.t0).0, PlainStep(m, set_, item.t0).0;
      AgreesLater(exact, cfg, c', m', item.t0, item.t1);
      StepSimulates(exact, cfg, c', m', LastOp(call), item.t1);
    } else {
      StepSimulates(exact, cfg, c, m, LastOp(call), item.t0);
    }
  }

  lemma {:induction false} SessionSimulates(exact: bool, cfg: Config, c: Cache, m: Plain, items: seq<Item>,
                                            info: Bytes, now: nat)
    requires WellFormed(cfg, c) && AllResident(c) && Simulates(exact, cfg, c, m, now) && (exact ==> Unlimited(cfg))
    requires SessionClocked(items, now) && |info| <= ISIZE_MAX
    ensures ResultsOk(exact, Calls(items), Remote(cfg, c, FRESH, items, info), Local(m, items))
    decreases |items|
  {
    if items != [] {
      var item, rest := items[0], items[1..];
      match item
      case Ask(call, _, _) =>
        WireIsDirect(cfg, c, call, ClockOf(item), info);
        DirectSimulates(exact, cfg, c, m, item, now);
        var (c', r) := Direct(cfg, c, call, ClockOf(item));
        var (m', p) := PlainCall(m, call, ClockOf(item));
        SessionSimulates(exact, cfg, c', m', rest, info, EndsAt(item));
        ConsResults(exact, call, r, p, Calls(rest), Remote(cfg, c', FRESH, rest, info), Local(m', rest));
        assert Calls(items) == [call] + Calls(rest);
      case Sweep(asOf, t) =>
        AgreesLater(exact, cfg, c, m, now, t);
        SweepSimulates(exact, cfg, c, m, asOf, t);
        SweepResident(cfg, c, asOf, t);
        SessionSimulates(exact, cfg, Step(cfg, c, Purge(asOf), t).0, m, rest, info, t);
        assert Calls(items) == Calls(rest);
    }
  }

  // A client of an unlimited server cannot tell it from a plain map of its own: every session, any
  // number of shards, any hash, sweeps at any moment.
  lemma RemoteSessionIsPlainMap(cfg: Config, items: seq<Item>, info: Bytes)
    requires Startable(cfg) && Unlimited(cfg) && SessionClocked(items, 0) && |info| <= ISIZE_MAX
    ensures WellFormed(cfg, Empty(cfg)) && Remote(cfg, Empty(cfg), FRESH, items, info) == Local(map[], items)
  {
    EmptySimulates(cfg);
    SessionSimulates(true, cfg, Empty(cfg), map[], items, info, 0);
    var rs, ps := Remote(cfg, Empty(cfg), FRESH, items, info), Local(map[], items);
    forall i | 0 <= i < |rs| ensures rs[i] == ps[i] {
      assert ResultOk(true, Calls(items)[i], rs[i], ps[i]);
    }
  }

  // A client of a bounded server gets the map's result or the result for an absent key.
  lemma RemoteSessionNeverStale(cfg: Config, items: seq<Item>, info: Bytes)
    requires Startable(cfg) && SessionClocked(items, 0) && |info| <= ISIZE_MAX
    ensures WellFormed(cfg, Empty(cfg))
    ensures ResultsOk(false, Calls(items), Remote(cfg, Empty(cfg), FRESH, items, info), Local(map[], items))
  {
    EmptySimulates(cfg);
    assert Simulates(false, cfg, Empty(cfg), map[], 0);
    SessionSimulates(false, cfg, Empty(cfg), map[], items, info, 0);
  }
}
