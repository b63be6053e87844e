/**
 A server connection as a whole (hkv-server/src/server.rs): read, parse, dispatch and write, over the
 engine. The method is proved to write exactly the replies of EndToEnd.dfy; pipelines of client calls,
 cut into reads in any way, get the replies of a plain map.
 */
module Pipelines {
  import opened Base
  import opened Recency
  import opened Cache
  import opened ClientResp
  import opened PlainStore
  import opened Server
  import opened EndToEnd
  import ServerParser
  import StreamGrammar
  import Engine

  // ---------------------------------------------------------------------------------------
  // Replies, command by command and read by read.

  // `first` and then `rest`, which went on where `first` ended.
  function Then(first: Transcript, rest: Transcript): Transcript {
    rest.(replies := first.replies + rest.replies)
  }

  lemma RespondCons(cfg: Config, c: Cache, cmd: seq<Bytes>, s: ServerParser.Session, clocks: nat -> Clock, k: nat,
                    infos: nat -> Bytes)
    requires WellFormed(cfg, c)
    ensures RespondAll(cfg, c, ServerParser.Prepend([cmd], s), clocks, k, infos) ==
            match Dispatch(cfg, c, cmd, clocks(k), infos(k))
            case Panicked(c') => Transcript([], false, c')
            case Replied(c', v) =>
              Then(Transcript([v], true, c'), RespondAll(cfg, c', s, clocks, k + 1, infos))
  {
    assert ([cmd] + s.cmds)[1..] == s.cmds;
    var o := Dispatch(cfg, c, cmd, clocks(k), infos(k));
    if o.Replied? {
      var r := Respond(cfg, o.cache, s.cmds, clocks, k + 1, infos);
      Assoc([o.reply], r.replies, [ErrReply("protocol error")]);
    }
  }

  lemma {:induction false} RespondPrepend(cfg: Config, c: Cache, cmds: seq<seq<Bytes>>, s: ServerParser.Session,
                                          clocks: nat -> Clock, k: nat, infos: nat -> Bytes)
    requires WellFormed(cfg, c)
    ensures var first := Respond(cfg, c, cmds, clocks, k, infos);
            RespondAll(cfg, c, ServerParser.Prepend(cmds, s), clocks, k, infos) ==
            if first.completed then Then(first, RespondAll(cfg, first.cache, s, clocks, k + |cmds|, infos)) else first
    decreases |cmds|
  {
    if cmds == [] {
      assert [] + s.cmds == s.cmds;
      var r := RespondAll(cfg, c, s, clocks, k, infos);
      assert [] + r.replies == r.replies;
    } else {
      var s' := ServerParser.Prepend(cmds[1..], s);
      assert cmds + s.cmds == [cmds[0]] + (cmds[1..] + s.cmds);
      RespondCons(cfg, c, cmds[0], s', clocks, k, infos);
      var o := Dispatch(cfg, c, cmds[0], clocks(k), infos(k));
      if o.Replied? {
        RespondPrepend(cfg, o.cache, cmds[1..], s, clocks, k + 1, infos);
        var first := Respond(cfg, o.cache, cmds[1..], clocks, k + 1, infos);
        Assoc([o.reply], first.replies, RespondAll(cfg, first.cache, s, clocks, k + |cmds|, infos).replies);
      }
    }
  }

  lemma {:induction false} PrintAllAppend(a: seq<RespValue>, b: seq<RespValue>)
    ensures PrintAll(a + b) == PrintAll(a) + PrintAll(b)
  {
    if a == [] {
      assert a + b == b;
    } else {
      assert (a + b)[1..] == a[1..] + b;
      PrintAllAppend(a[1..], b);
      Assoc(Print(a[0]), PrintAll(a[1..]), PrintAll(b));
    }
  }

  lemma PrintOne(v: RespValue)
    ensures PrintAll([v]) == Print(v)
  {
    assert [v][1..] == [];
    assert Print(v) + [] == Print(v);
  }

  // ---------------------------------------------------------------------------------------
  // The code.

  // `out` has been written, `left` is still to come, and together they are `whole`.
  predicate Progress(whole: Transcript, out: Bytes, left: Transcript) {
    && PrintAll(whole.replies) == out + PrintAll(left.replies)
    && whole.completed == left.completed && whole.cache == left.cache
  }

  lemma Advanced(whole: Transcript, out: Bytes, first: Transcript, left: Transcript)
    requires Progress(whole, out, Then(first, left))
    ensures Progress(whole, out + PrintAll(first.replies), left)
  {
    PrintAllAppend(first.replies, left.replies);
    Assoc(out, PrintAll(first.replies), PrintAll(left.replies));
  }

  lemma Finished(whole: Transcript, out: Bytes, left: Transcript)
    requires Progress(whole, out, left) && left.replies == []
    ensures PrintAll(whole.replies) == out
  {
    assert out + [] == out;
  }

  // `t` is what a session is answered with, by name: `Unfold` opens it, so that the loops below need not
  // look into dispatch.
  ghost predicate Answers(cfg: Config, c: Cache, s: ServerParser.Session, clocks: nat -> Clock, k: nat,
                          infos: nat -> Bytes, t: Transcript) {
    WellFormed(cfg, c) && forall n: nat :: Unfold(n) ==> t == RespondAll(cfg, c, s, clocks, k, infos)
  }

  ghost function AnswersOf(cfg: Config, c: Cache, s: ServerParser.Session, clocks: nat -> Clock, k: nat,
                           infos: nat -> Bytes): (t: Transcript)
    requires WellFormed(cfg, c)
    ensures Answers(cfg, c, s, clocks, k, infos, t)
  {
    RespondAll(cfg, c, s, clocks, k, infos)
  }

  // `o` is the outcome of a command, by name.
  ghost predicate Decided(cfg: Config, c: Cache, args: seq<Bytes>, clock: Clock, info: Bytes, o: Outcome) {
    WellFormed(cfg, c) && forall n: nat :: Unfold(n) ==> o == Dispatch(cfg, c, args, clock, info)
  }

  lemma AnswersNothing(cfg: Config, c: Cache, end: ServerParser.End, clocks: nat -> Clock, k: nat,
                       infos: nat -> Bytes, t: Transcript)
    requires Answers(cfg, c, ServerParser.Session([], end), clocks, k, infos, t)
    ensures t == Transcript(if end.Failed? then [ErrReply("protocol error")] else [], true, c)
  {
    assert Unfold(0);
    assert [] + [ErrReply("protocol error")] == [ErrReply("protocol error")];
  }

  lemma AnswersCommand(cfg: Config, c: Cache, cmd: seq<Bytes>, s: ServerParser.Session, clocks: nat -> Clock, k: nat,
                       infos: nat -> Bytes, t: Transcript) returns (o: Outcome, left: Transcript)
    requires Answers(cfg, c, ServerParser.Prepend([cmd], s), clocks, k, infos, t)
    ensures Decided(cfg, c, cmd, clocks(k), infos(k), o)
    ensures match o
            case Panicked(c') => t == Transcript([], false, c')
            case Replied(c', v) =>
              Answers(cfg, c', s, clocks, k + 1, infos, left) && t == Then(Transcript([v], true, c'), left)
  {
    assert Unfold(0);
    o := Dispatch(cfg, c, cmd, clocks(k), infos(k));
    RespondCons(cfg, c, cmd, s, clocks, k, infos);
    left := AnswersOf(cfg, o.cache, s, clocks, k + 1, infos);
  }

  lemma AnswersWaiting(cfg: Config, c: Cache, s: ServerParser.Session, after: ServerParser.Session,
                       clocks: nat -> Clock, k: nat, infos: nat -> Bytes, first: Transcript, t: Transcript)
    returns (left: Transcript)
    requires Answers(cfg, c, s, clocks, k, infos, first) && s.end.Waiting?
    requires Answers(cfg, c, ServerParser.Prepend(s.cmds, after), clocks, k, infos, t)
    ensures if first.completed then
              Answers(cfg, first.cache, after, clocks, k + |s.cmds|, infos, left) && t == Then(first, left)
            else t == first
  {
    assert Unfold(0);
    RespondPrepend(cfg, c, s.cmds, after, clocks, k, infos);
    left := AnswersOf(cfg, first.cache, after, clocks, k + |s.cmds|, infos);
  }

  // What a connection with the parser state `v` and the unread bytes `buf` will do until it needs more:
  // what it writes, how parsing ends, and the number of commands served by then.
  datatype Due = Due(t: Transcript, end: ServerParser.End, upto: nat)

  ghost predicate Owes(cfg: Config, c: Cache, v: ServerParser.Suspended, buf: Bytes, clocks: nat -> Clock, k: nat,
                       infos: nat -> Bytes, due: Due) {
    && WellFormed(cfg, c) && ServerParser.Sound(v)
    && forall n: nat :: Unfold(n) ==>
         && Answers(cfg, c, ServerParser.Drain(v, buf), clocks, k, infos, due.t)
         && due.end == ServerParser.Drain(v, buf).end && due.upto == k + |ServerParser.Drain(v, buf).cmds|
  }

  // No command is left in the buffer.
  lemma OwesNothing(cfg: Config, c: Cache, v: ServerParser.Suspended, buf: Bytes, clocks: nat -> Clock, k: nat,
                    infos: nat -> Bytes, due: Due)
    requires Owes(cfg, c, v, buf, clocks, k, infos, due) && !ServerParser.ParseOnce(v, buf).Ready?
    ensures due.t.completed && due.t.cache == c && due.upto == k
    ensures match ServerParser.ParseOnce(v, buf)
            case NeedMore(v', buf') => due.end == ServerParser.Waiting(v', buf') && due.t.replies == []
            case ProtocolError => due.end == ServerParser.Failed && due.t.replies == [ErrReply("protocol error")]
            case Panic => due.end == ServerParser.Panicked && due.t.replies == []
            case Ready(_, _) => true
  {
    assert Unfold(0);
    AnswersNothing(cfg, c, due.end, clocks, k, infos, due.t);
  }

  // A command is: its reply comes first.
  lemma OwesReply(cfg: Config, c: Cache, v: ServerParser.Suspended, buf: Bytes, clocks: nat -> Clock, k: nat,
                  infos: nat -> Bytes, due: Due) returns (o: Outcome, left: Due)
    requires Owes(cfg, c, v, buf, clocks, k, infos, due) && ServerParser.ParseOnce(v, buf).Ready?
    ensures Decided(cfg, c, ServerParser.ParseOnce(v, buf).cmd, clocks(k), infos(k), o)
    ensures match o
            case Panicked(c') => due.t == Transcript([], false, c')
            case Replied(c', reply) =>
              && Owes(cfg, c', ServerParser.AtStart, ServerParser.ParseOnce(v, buf).rest, clocks, k + 1, infos, left)
              && due == Due(Then(Transcript([reply], true, c'), left.t), left.end, left.upto)
  {
    assert Unfold(0);
    var r := ServerParser.ParseOnce(v, buf);
    var rest := ServerParser.Drain(ServerParser.AtStart, r.rest);
    var t;
    o, t := AnswersCommand(cfg, c, r.cmd, rest, clocks, k, infos, due.t);
    left := Due(t, rest.end, k + 1 + |rest.cmds|);
  }

  // `left` of what was due is still to come after `out`.
  ghost predicate Remains(due: Due, out: Bytes, left: Due) {
    forall n: nat :: Unfold(n) ==> Progress(due.t, out, left.t) && left.end == due.end && left.upto == due.upto
  }

  method ServeCommand(args: seq<Bytes>, engine: Engine.MemoryEngine, clock: Clock, info: Bytes, ghost o: Outcome)
    returns (r: Option<Bytes>)
    requires engine.Valid() && Decided(engine.Cfg(), engine.Abs(), args, clock, info, o)
    modifies engine, engine.shards
    ensures engine.Valid() && Served(o, engine.Abs(), r)
  {
    assert Unfold(0);
    r := DispatchCommand(args, engine, clock, info);
  }

  lemma AllRemains(due: Due)
    ensures Remains(due, [], due)
  {
    assert [] + PrintAll(due.t.replies) == PrintAll(due.t.replies);
  }

  // One command is served.
  lemma CommandServed(cfg: Config, c: Cache, v: ServerParser.Suspended, buf: Bytes, clocks: nat -> Clock, k: nat,
                      infos: nat -> Bytes, due: Due, out: Bytes, left: Due) returns (o: Outcome, next: Due)
    requires Owes(cfg, c, v, buf, clocks, k, infos, left) && Remains(due, out, left)
    requires ServerParser.ParseOnce(v, buf).Ready?
    ensures Decided(cfg, c, ServerParser.ParseOnce(v, buf).cmd, clocks(k), infos(k), o)
    ensures match o
            case Panicked(c') => PrintAll(due.t.replies) == out && due.t.cache == c' && !due.t.completed
            case Replied(c', reply) =>
              && Owes(cfg, c', ServerParser.AtStart, ServerParser.ParseOnce(v, buf).rest, clocks, k + 1, infos, next)
              && Remains(due, out + Print(reply), next)
  {
    assert Unfold(0);
    o, next := OwesReply(cfg, c, v, buf, clocks, k, infos, left);
    match o {
      case Panicked(c') => Finished(due.t, out, left.t);
      case Replied(c', reply) =>
        Advanced(due.t, out, Transcript([reply], true, c'), next.t);
        PrintOne(reply);
    }
  }

  // There is none left to serve.
  lemma BufferServed(cfg: Config, c: Cache, v: ServerParser.Suspended, buf: Bytes, clocks: nat -> Clock, k: nat,
                     infos: nat -> Bytes, due: Due, out: Bytes, left: Due)
    requires Owes(cfg, c, v, buf, clocks, k, infos, left) && Remains(due, out, left)
    requires !ServerParser.ParseOnce(v, buf).Ready?
    ensures due.t.completed && due.t.cache == c && due.upto == k
    ensures match ServerParser.ParseOnce(v, buf)
            case NeedMore(v', buf') => due.end == ServerParser.Waiting(v', buf') && PrintAll(due.t.replies) == out
            case ProtocolError =>
              due.end == ServerParser.Failed && PrintAll(due.t.replies) == out + Print(ErrReply("protocol error"))
            case Panic => due.end == ServerParser.Panicked && PrintAll(due.t.replies) == out
            case Ready(_, _) => true
  {
    assert Unfold(0);
    OwesNothing(cfg, c, v, buf, clocks, k, infos, left);
    if left.t.replies == [] {
      Finished(due.t, out, left.t);
    }
    PrintOne(ErrReply("protocol error"));
  }

  // Parser, buffer and engine are sound and owe `left`; again by name, opened by `Inspect` alone.
  predicate Inspect(n: nat) {
    true
  }

  ghost predicate Serving(parser: ServerParser.RespParser, buffer: ServerParser.Buffer, engine: Engine.MemoryEngine,
                          clocks: nat -> Clock, k: nat, infos: nat -> Bytes, left: Due)
    reads parser, buffer, engine, engine.shards
  {
    forall n: nat :: Inspect(n) ==>
      && parser.Valid() && engine.Valid()
      && Owes(engine.Cfg(), engine.Abs(), parser.View(), buffer.data, clocks, k, infos, left)
  }

  // How the inner loop stops.
  ghost predicate Stopped(due: Due, out: Bytes, c: Cache, v: ServerParser.Suspended, buf: Bytes, served: nat,
                          open_: bool) {
    && out == PrintAll(due.t.replies) && c == due.t.cache
    && open_ == (due.t.completed && due.end.Waiting?)
    && (open_ ==> due.end == ServerParser.Waiting(v, buf) && served == due.upto)
  }

  // One turn of the inner loop: a command is parsed, dispatched and its reply written, or the loop stops.
  method ServeTurn(parser: ServerParser.RespParser, buffer: ServerParser.Buffer, engine: Engine.MemoryEngine,
                   clocks: nat -> Clock, infos: nat -> Bytes, k: nat, written: Bytes, ghost due: Due, ghost left: Due)
    returns (out: Bytes, done: bool, open_: bool, ghost next: Due)
    requires Serving(parser, buffer, engine, clocks, k, infos, left) && Remains(due, written, left)
    modifies parser, buffer, engine, engine.shards
    ensures done ==>
              && parser.Valid() && engine.Valid()
              && Stopped(due, out, engine.Abs(), parser.View(), buffer.data, k, open_)
    ensures !done ==>
              && Serving(parser, buffer, engine, clocks, k + 1, infos, next) && Remains(due, out, next)
              && |buffer.data| < |old(buffer.data)|
  {
    assert Inspect(0);
    out, done, open_, next := written, true, false, left;
    ghost var c, v, data := engine.Abs(), parser.View(), buffer.data;
    var last := parser.Parse(buffer);
    if last.Parsed? {
      ghost var o;
      o, next := CommandServed(engine.Cfg(), c, v, data, clocks, k, infos, due, out, left);
      var reply := ServeCommand(last.args, engine, clocks(k), infos(k), o);
      if reply.Some? {
        out, done := out + reply.value, false;
      }
    } else {
      BufferServed(engine.Cfg(), c, v, data, clocks, k, infos, due, out, left);
      if last.Malformed? {
        var reply := RespError("protocol error");
        out := out + reply;
      } else {
        open_ := last.Incomplete?;
      }
    }
  }

  // The inner loop.
  method ServeBuffer(parser: ServerParser.RespParser, buffer: ServerParser.Buffer, engine: Engine.MemoryEngine,
                     clocks: nat -> Clock, infos: nat -> Bytes, k: nat, ghost due: Due)
    returns (out: Bytes, served: nat, open_: bool)
    requires parser.Valid() && engine.Valid()
    requires Owes(engine.Cfg(), engine.Abs(), parser.View(), buffer.data, clocks, k, infos, due)
    modifies parser, buffer, engine, engine.shards
    ensures parser.Valid() && engine.Valid()
    ensures Stopped(due, out, engine.Abs(), parser.View(), buffer.data, served, open_)
  {
    out, served := [], k;
    ghost var left := due;
    AllRemains(due);
    while true
      invariant Serving(parser, buffer, engine, clocks, served, infos, left) && Remains(due, out, left)
      decreases |buffer.data|
    {
      var done;
      out, done, open_, left := ServeTurn(parser, buffer, engine, clocks, infos, served, out, due, left);
      if done {
        return;
      }
      served := served + 1;
    }
  }

  // The same for a connection with reads still to come.
  ghost predicate OwesReads(cfg: Config, c: Cache, v: ServerParser.Suspended, buf: Bytes, chunks: seq<Bytes>,
                            clocks: nat -> Clock, k: nat, infos: nat -> Bytes, t: Transcript) {
    ServerParser.Sound(v) && Answers(cfg, c, ServerParser.Feed(v, buf, chunks), clocks, k, infos, t)
  }

  lemma OwesRead(cfg: Config, c: Cache, v: ServerParser.Suspended, buf: Bytes, chunks: seq<Bytes>,
                 clocks: nat -> Clock, k: nat, infos: nat -> Bytes, t: Transcript)
    returns (due: Due, left: Transcript)
    requires OwesReads(cfg, c, v, buf, chunks, clocks, k, infos, t) && chunks != []
    ensures Owes(cfg, c, v, buf + chunks[0], clocks, k, infos, due)
    ensures if due.t.completed && due.end.Waiting? then
              && t == Then(due.t, left)
              && OwesReads(cfg, due.t.cache, due.end.s, due.end.buf, chunks[1..], clocks, due.upto, infos, left)
            else t == due.t
  {
    var s := ServerParser.Drain(v, buf + chunks[0]);
    due := Due(AnswersOf(cfg, c, s, clocks, k, infos), s.end, k + |s.cmds|);
    left := due.t;
    if s.end.Waiting? {
      left := AnswersWaiting(cfg, c, s, ServerParser.Feed(s.end.s, s.end.buf, chunks[1..]), clocks, k, infos, due.t, t);
    } else {
      assert Unfold(0);
    }
  }

  // The outer loop: each read is appended to the buffer and served.
  method ServeReads(chunks: seq<Bytes>, engine: Engine.MemoryEngine, clocks: nat -> Clock, infos: nat -> Bytes,
                    ghost whole: Transcript) returns (out: Bytes)
    requires engine.Valid()
    requires OwesReads(engine.Cfg(), engine.Abs(), ServerParser.AtStart, [], chunks, clocks, 0, infos, whole)
    modifies engine, engine.shards
    ensures engine.Valid()
    ensures out == PrintAll(whole.replies) && engine.Abs() == whole.cache
  {
    out := [];
    var buffer := new ServerParser.Buffer();
    var parser := new ServerParser.RespParser();
    var served := 0;
    ghost var left := whole;
    assert chunks[0..] == chunks && [] + PrintAll(whole.replies) == PrintAll(whole.replies);
    for i := 0 to |chunks|
      invariant parser.Valid() && engine.Valid()
      invariant OwesReads(engine.Cfg(), engine.Abs(), parser.View(), buffer.data, chunks[i..], clocks, served, infos,
                          left)
      invariant Progress(whole, out, left)
    {
      ghost var due, next := OwesRead(engine.Cfg(), engine.Abs(), parser.View(), buffer.data, chunks[i..], clocks,
                                      served, infos, left);
      assert chunks[i..][0] == chunks[i] && chunks[i..][1..] == chunks[i + 1..];
      buffer.data := buffer.data + chunks[i];
      var written, more, open_ := ServeBuffer(parser, buffer, engine, clocks, infos, served, due);
      if !open_ {
        return out + written;
      }
      Advanced(whole, out, due.t, next);
      out, served, left := out + written, more, next;
    }
    assert chunks[|chunks|..] == [];
    AnswersNothing(engine.Cfg(), engine.Abs(), ServerParser.Waiting(parser.View(), buffer.data), clocks, served, infos,
                   left);
    Finished(whole, out, left);
  }

  // A whole connection: what it writes is the replies of the session, and the engine is left as they
  // leave it.
  method ServeConnection(chunks: seq<Bytes>, engine: Engine.MemoryEngine, clocks: nat -> Clock,
                         infos: nat -> Bytes) returns (out: Bytes)
    requires engine.Valid() && forall i :: 0 <= i < |chunks| ==> chunks[i] != []
    modifies engine, engine.shards
    ensures engine.Valid()
    ensures out == PrintAll(Written(engine.Cfg(), old(engine.Abs()), chunks, clocks, infos))
    ensures engine.Abs() == RespondAll(engine.Cfg(), old(engine.Abs()),
                                       ServerParser.Feed(ServerParser.AtStart, [], chunks), clocks, 0, infos).cache
  {
    ghost var whole := RespondAll(engine.Cfg(), engine.Abs(),
                                  ServerParser.Feed(ServerParser.AtStart, [], chunks), clocks, 0, infos);
    out := ServeReads(chunks, engine, clocks, infos, whole);
  }

  // ---------------------------------------------------------------------------------------
  // Pipelines of client calls.

  function Commands(calls: seq<Call>): (r: seq<seq<Bytes>>)
    ensures |r| == |calls|
    ensures forall i :: 0 <= i < |calls| ==> r[i] == ArgsOf(calls[i])
  {
    seq(|calls|, i requires 0 <= i < |calls| => ArgsOf(calls[i]))
  }

  // The calls with the readings their commands take.
  function Timed(calls: seq<Call>, clocks: nat -> Clock, k: nat): (r: seq<Item>)
    ensures |r| == |calls|
  {
    if calls == [] then []
    else [Ask(calls[0], clocks(k)(0), clocks(k)(1))] + Timed(calls[1..], clocks, k + 1)
  }

  // The replies, as the client reads them, are the map's results up to a call that breaks the connection
  // for the map as well; on a bounded engine a reply may be that of an absent key.
  predicate RepliesOk(exact: bool, calls: seq<Call>, replies: seq<RespValue>, local: seq<Result>) {
    && |replies| <= |calls| == |local|
    && (forall i :: 0 <= i < |replies| ==> ResultOk(exact, calls[i], Interpret(calls[i], replies[i]), local[i]))
    && (|replies| < |calls| ==> local[|replies|] == Broken)
  }

  lemma ConsReplies(exact: bool, call: Call, v: RespValue, p: Result, calls: seq<Call>, vs: seq<RespValue>,
                    local: seq<Result>)
    requires ResultOk(exact, call, Interpret(call, v), p) && RepliesOk(exact, calls, vs, local)
    ensures RepliesOk(exact, [call] + calls, [v] + vs, [p] + local)
  {
  }

  lemma SameReadings(cfg: Config, c: Cache, m: Plain, call: Call, clock: Clock)
    requires WellFormed(cfg, c)
    ensures var item := Ask(call, clock(0), clock(1));
            Direct(cfg, c, call, clock) == Direct(cfg, c, call, ClockOf(item))
            && PlainCall(m, call, clock) == PlainCall(m, call, ClockOf(item))
  {
  }

  // The words of a command are those of a call, by name.
  ghost predicate Asks(cmd: seq<Bytes>, call: Call) {
    forall n: nat :: Unfold(n) ==> cmd == ArgsOf(call)
  }

  // One command of a pipeline against one call on the map.
  lemma CommandLikeMap(exact: bool, cfg: Config, c: Cache, m: Plain, cmd: seq<Bytes>, call: Call, clock: Clock,
                       info: Bytes, now: nat)
    requires Asks(cmd, call)
    requires WellFormed(cfg, c) && AllResident(c) && Simulates(exact, cfg, c, m, now) && (exact ==> Unlimited(cfg))
    requires ItemClocked(Ask(call, clock(0), clock(1)), now) && |info| <= ISIZE_MAX
    ensures var o, p := Dispatch(cfg, c, cmd, clock, info), PlainCall(m, call, ClockOf(Ask(call, clock(0), clock(1))));
            && AllResident(o.cache)
            && (o.Replied? ==> ResultOk(exact, call, Interpret(call, o.reply), p.1))
            && (o.Replied? ==> Simulates(exact, cfg, o.cache, p.0, EndsAt(Ask(call, clock(0), clock(1)))))
            && (o.Panicked? ==> p.1 == Broken)
  {
    assert Unfold(0);
    CallFits(call);
    DispatchFindsHandler(cfg, c, call, clock, info);
    HandledIsDirect(cfg, c, call, clock);
    DispatchPrintable(cfg, c, ArgsOf(call), clock, info);
    SameReadings(cfg, c, m, call, clock);
    DirectSimulates(exact, cfg, c, m, Ask(call, clock(0), clock(1)), now);
  }

  ghost predicate AllAsk(cmds: seq<seq<Bytes>>, calls: seq<Call>) {
    |cmds| == |calls| && forall i :: 0 <= i < |calls| ==> Asks(cmds[i], calls[i])
  }

  lemma CommandsAsk(calls: seq<Call>)
    ensures AllAsk(Commands(calls), calls)
  {
  }

  lemma {:induction false} PipelineSimulates(exact: bool, cfg: Config, c: Cache, m: Plain, cmds: seq<seq<Bytes>>,
                                             calls: seq<Call>, clocks: nat -> Clock, k: nat, infos: nat -> Bytes,
                                             now: nat)
    requires WellFormed(cfg, c) && AllResident(c) && Simulates(exact, cfg, c, m, now) && (exact ==> Unlimited(cfg))
    requires SessionClocked(Timed(calls, clocks, k), now) && InfosFit(infos) && AllAsk(cmds, calls)
    ensures RepliesOk(exact, calls, Respond(cfg, c, cmds, clocks, k, infos).replies,
                      Local(m, Timed(calls, clocks, k)))
    decreases |calls|
  {
    if calls != [] {
      var call, rest, clock := calls[0], calls[1..], clocks(k);
      var item := Ask(call, clock(0), clock(1));
      assert Timed(calls, clocks, k)[1..] == Timed(rest, clocks, k + 1);
      CommandLikeMap(exact, cfg, c, m, cmds[0], call, clock, infos(k), now);
      var o, p := Dispatch(cfg, c, cmds[0], clock, infos(k)), PlainCall(m, call, ClockOf(item));
      if o.Replied? {
        PipelineSimulates(exact, cfg, o.cache, p.0, cmds[1..], rest, clocks, k + 1, infos, EndsAt(item));
      }
      FirstReply(exact, cfg, c, m, cmds, calls, clocks, k, infos, o, p);
    }
  }

  // The first command and the rest, put together.
  lemma FirstReply(exact: bool, cfg: Config, c: Cache, m: Plain, cmds: seq<seq<Bytes>>, calls: seq<Call>,
                   clocks: nat -> Clock, k: nat, infos: nat -> Bytes, o: Outcome, p: (Plain, Result))
    requires WellFormed(cfg, c) && |cmds| == |calls| > 0
    requires o == Dispatch(cfg, c, cmds[0], clocks(k), infos(k))
    requires p == PlainCall(m, calls[0], ClockOf(Ask(calls[0], clocks(k)(0), clocks(k)(1))))
    requires o.Panicked? ==> p.1 == Broken
    requires o.Replied? ==>
               && ResultOk(exact, calls[0], Interpret(calls[0], o.reply), p.1)
               && RepliesOk(exact, calls[1..], Respond(cfg, o.cache, cmds[1..], clocks, k + 1, infos).replies,
                            Local(p.0, Timed(calls[1..], clocks, k + 1)))
    ensures RepliesOk(exact, calls, Respond(cfg, c, cmds, clocks, k, infos).replies,
                      Local(m, Timed(calls, clocks, k)))
  {
    var rest := Local(p.0, Timed(calls[1..], clocks, k + 1));
    assert Timed(calls, clocks, k)[1..] == Timed(calls[1..], clocks, k + 1);
    assert Local(m, Timed(calls, clocks, k)) == [p.1] + rest;
    LocalLength(p.0, calls[1..], clocks, k + 1);
    if o.Replied? {
      ConsReplies(exact, calls[0], o.reply, p.1, calls[1..],
                  Respond(cfg, o.cache, cmds[1..], clocks, k + 1, infos).replies, rest);
      assert [calls[0]] + calls[1..] == calls;
    }
  }

  lemma {:induction false} LocalLength(m: Plain, calls: seq<Call>, clocks: nat -> Clock, k: nat)
    ensures |Local(m, Timed(calls, clocks, k))| == |calls|
    decreases |calls|
  {
    if calls != [] {
      var item := Ask(calls[0], clocks(k)(0), clocks(k)(1));
      assert Timed(calls, clocks, k)[1..] == Timed(calls[1..], clocks, k + 1);
      LocalLength(PlainCall(m, calls[0], ClockOf(item)).0, calls[1..], clocks, k + 1);
    }
  }

  lemma {:induction false} TimedFit(calls: seq<Call>, clocks: nat -> Clock, k: nat, now: nat)
    requires SessionClocked(Timed(calls, clocks, k), now)
    ensures forall i :: 0 <= i < |calls| ==> FitsArgs(Commands(calls)[i])
    decreases |calls|
  {
    if calls != [] {
      assert Timed(calls, clocks, k)[1..] == Timed(calls[1..], clocks, k + 1);
      TimedFit(calls[1..], clocks, k + 1, EndsAt(Timed(calls, clocks, k)[0]));
      CallFits(calls[0]);
      forall i | 0 <= i < |calls| ensures FitsArgs(Commands(calls)[i]) {
        if i > 0 {
          assert Commands(calls)[i] == Commands(calls[1..])[i - 1];
        }
      }
    }
  }

  lemma SplitReplies(cfg: Config, c: Cache, cmds: seq<seq<Bytes>>, s: ServerParser.Session,
                     whole: ServerParser.Session, clocks: nat -> Clock, infos: nat -> Bytes)
    requires WellFormed(cfg, c) && whole == ServerParser.Prepend(cmds, s)
    ensures var first := Respond(cfg, c, cmds, clocks, 0, infos);
            RespondAll(cfg, c, whole, clocks, 0, infos).replies ==
            first.replies + (if first.completed then RespondAll(cfg, first.cache, s, clocks, |cmds|, infos).replies
                             else [])
  {
    RespondPrepend(cfg, c, cmds, s, clocks, 0, infos);
    var first := Respond(cfg, c, cmds, clocks, 0, infos);
    assert first.replies + [] == first.replies;
  }

  // Reads that spell a pipeline and then `tail`: the replies of the pipeline, and what `tail` deserves.
  lemma PipelineWritten(cfg: Config, c: Cache, cmds: seq<seq<Bytes>>, chunks: seq<Bytes>, tail: Bytes,
                        clocks: nat -> Clock, infos: nat -> Bytes)
    requires WellFormed(cfg, c) && forall i :: 0 <= i < |cmds| ==> FitsArgs(cmds[i])
    requires Concat(chunks) == EncodeAll(cmds) + tail
    ensures var first := Respond(cfg, c, cmds, clocks, 0, infos);
            Written(cfg, c, chunks, clocks, infos) ==
            first.replies + (if first.completed
                             then RespondAll(cfg, first.cache, ServerParser.Drain(ServerParser.AtStart, tail), clocks,
                                             |cmds|, infos).replies
                             else [])
  {
    FeedIsDrain(chunks);
    PipelineRoundTrip(cmds, tail);
    SplitReplies(cfg, c, cmds, ServerParser.Drain(ServerParser.AtStart, tail),
                 ServerParser.Feed(ServerParser.AtStart, [], chunks), clocks, infos);
  }

  lemma PipelineLikeMap(exact: bool, cfg: Config, calls: seq<Call>, chunks: seq<Bytes>, clocks: nat -> Clock,
                        infos: nat -> Bytes)
    requires Startable(cfg) && (exact ==> Unlimited(cfg))
    requires SessionClocked(Timed(calls, clocks, 0), 0) && InfosFit(infos)
    requires Concat(chunks) == EncodeAll(Commands(calls))
    ensures WellFormed(cfg, Empty(cfg))
    ensures RepliesOk(exact, calls, Written(cfg, Empty(cfg), chunks, clocks, infos),
                      Local(map[], Timed(calls, clocks, 0)))
  {
    EmptySimulates(cfg);
    assert Simulates(exact, cfg, Empty(cfg), map[], 0);
    CommandsAsk(calls);
    PipelineSimulates(exact, cfg, Empty(cfg), map[], Commands(calls), calls, clocks, 0, infos, 0);
    TimedFit(calls, clocks, 0, 0);
    PipelineAlone(cfg, Empty(cfg), Commands(calls), chunks, clocks, infos);
  }

  lemma PipelineAlone(cfg: Config, c: Cache, cmds: seq<seq<Bytes>>, chunks: seq<Bytes>, clocks: nat -> Clock,
                      infos: nat -> Bytes)
    requires WellFormed(cfg, c) && forall i :: 0 <= i < |cmds| ==> FitsArgs(cmds[i])
    requires Concat(chunks) == EncodeAll(cmds)
    ensures Written(cfg, c, chunks, clocks, infos) == Respond(cfg, c, cmds, clocks, 0, infos).replies
  {
    assert EncodeAll(cmds) + [] == EncodeAll(cmds);
    PipelineWritten(cfg, c, cmds, chunks, [], clocks, infos);
    var first := Respond(cfg, c, cmds, clocks, 0, infos);
    NothingMore(cfg, first.cache, clocks, |cmds|, infos);
    assert first.replies + [] == first.replies;
  }

  lemma NothingMore(cfg: Config, c: Cache, clocks: nat -> Clock, k: nat, infos: nat -> Bytes)
    requires WellFormed(cfg, c)
    ensures RespondAll(cfg, c, ServerParser.Drain(ServerParser.AtStart, []), clocks, k, infos).replies == []
  {
  }

  // Any pipeline of client calls, however it is cut into reads, on a new unlimited server: the replies it
  // writes are, call by call, the results of a plain map.
  lemma PipelineIsPlainMap(cfg: Config, calls: seq<Call>, chunks: seq<Bytes>, clocks: nat -> Clock,
                           infos: nat -> Bytes)
    requires Startable(cfg) && Unlimited(cfg) && SessionClocked(Timed(calls, clocks, 0), 0) && InfosFit(infos)
    requires Concat(chunks) == EncodeAll(Commands(calls))
    ensures WellFormed(cfg, Empty(cfg))
    ensures var vs, local := Written(cfg, Empty(cfg), chunks, clocks, infos), Local(map[], Timed(calls, clocks, 0));
            && |vs| <= |calls| == |local|
            && (forall i :: 0 <= i < |vs| ==> Interpret(calls[i], vs[i]) == local[i])
            && (|vs| < |calls| ==> local[|vs|] == Broken)
  {
    PipelineLikeMap(true, cfg, calls, chunks, clocks, infos);
  }

  // On a bounded server: the map's results or those of absent keys.
  lemma PipelineNeverStale(cfg: Config, calls: seq<Call>, chunks: seq<Bytes>, clocks: nat -> Clock,
                           infos: nat -> Bytes)
    requires Startable(cfg) && SessionClocked(Timed(calls, clocks, 0), 0) && InfosFit(infos)
    requires Concat(chunks) == EncodeAll(Commands(calls))
    ensures WellFormed(cfg, Empty(cfg))
    ensures RepliesOk(false, calls, Written(cfg, Empty(cfg), chunks, clocks, infos),
                      Local(map[], Timed(calls, clocks, 0)))
  {
    PipelineLikeMap(false, cfg, calls, chunks, clocks, infos);
  }

  // A malformed tail costs the commands before it nothing: their replies are written, and then one error.
  lemma MalformedTailGetsOneError(cfg: Config, c: Cache, cmds: seq<seq<Bytes>>, chunks: seq<Bytes>, bad: Bytes,
                                  clocks: nat -> Clock, infos: nat -> Bytes)
    requires WellFormed(cfg, c) && forall i :: 0 <= i < |cmds| ==> FitsArgs(cmds[i])
    requires StreamGrammar.Malformed(bad) && Concat(chunks) == EncodeAll(cmds) + bad
    ensures var first := Respond(cfg, c, cmds, clocks, 0, infos);
            Written(cfg, c, chunks, clocks, infos) ==
            first.replies + (if first.completed then [ErrReply("protocol error")] else [])
  {
    PipelineWritten(cfg, c, cmds, chunks, bad, clocks, infos);
    StreamGrammar.RefusesExactlyMalformed(bad);
    assert [] + [ErrReply("protocol error")] == [ErrReply("protocol error")];
  }
}
