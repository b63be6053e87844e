/**
 Several clients at once. Each has its connection, and the server makes the engine calls of its commands
 as calls of Linear.dfy, interleaved with those of every other connection, with sweeps and with callers in
 the same process. What a client is told is what the plain map answers in the order of effect, or what it
 would be told if the key were absent; and each client's calls take effect in the order it made them.
 */
module Connections {
  import opened Base
  import opened Recency
  import opened Cache
  import opened PlainStore
  import opened ClientResp
  import opened Server
  import opened EndToEnd
  import ServerParser
  import Linear

  // ---------------------------------------------------------------------------------------
  // One call, given what the engine answers.

  // The engine calls the server makes for a client call.
  function OpsOf(call: Call): (ops: seq<Op>)
    ensures 1 <= |ops| <= 2 && ops[|ops| - 1] == LastOp(call)
    ensures forall i :: 0 <= i < |ops| ==> !ops[i].Purge?
  {
    if call.CallSetTtl? then [Set(call.key, call.value), LastOp(call)] else [LastOp(call)]
  }

  predicate Suits(op: Op, a: Answer) {
    match op
    case Get(_) => a.Value?
    case Set(_, _) => a.Done?
    case Delete(_) => a.Removed?
    case Expire(_, _) => a.Expiry?
    case Ttl(_) => a.Remaining?
    case Purge(_) => a.Swept?
  }

  // The server's reply, from the answer to the last of them; none after a panic.
  function ReplyTo(call: Call, a: Answer): Option<RespValue>
    requires Suits(LastOp(call), a)
  {
    match call
    case CallGet(_) => Some(Bulk(a.value))
    case CallSet(_, _) => Some(Simple(Ascii("OK")))
    case CallDelete(_) => Some(Integer(if a.removed then 1 else 0))
    case CallTtl(_) =>
      Some(Integer(match a.status
                   case Missing => -2
                   case NoExpiry => -1
                   case ExpiresIn(nanos) => SecondsAsI64(nanos)))
    case CallExpire(_, _) =>
      (match a.result
       case Applied => Some(Integer(1))
       case NotFound => Some(Integer(0))
       case Overflowed => None)
    case CallSetTtl(_, _, _) =>
      (match a.result
       case Applied => Some(Simple(Ascii("OK")))
       case NotFound => Some(ErrReply("engine error"))
       case Overflowed => None)
  }

  predicate Replies(call: Call, a: Answer, o: Outcome) {
    Suits(LastOp(call), a) && ReplyTo(call, a) == if o.Replied? then Some(o.reply) else None
  }

  lemma DeleteReply(cfg: Config, c: Cache, key: Bytes, clock: Clock)
    requires WellFormed(cfg, c)
    ensures Replies(CallDelete(key), Step(cfg, c, Delete(key), clock(0)).1, HandleDel(cfg, c, [DEL, key], clock))
  {
    assert [DEL, key][1..] == [key] && [key][1..] == [];
    var (c', a) := Step(cfg, c, Delete(key), clock(0));
    assert DeleteAll(cfg, c', [], clock, 1) == (c', 0);
  }

  lemma SetTtlReply(cfg: Config, c: Cache, call: Call, clock: Clock)
    requires WellFormed(cfg, c) && FitsCall(call) && call.CallSetTtl?
    ensures var c' := Step(cfg, c, Set(call.key, call.value), clock(0)).0;
            Replies(call, Step(cfg, c', LastOp(call), clock(1)).1, HandleSet(cfg, c, ArgsOf(call), clock))
  {
    DigitsFit(call.ttl);
    assert EqIgnoreAsciiCase(EX, EX);
    assert HandleSet(cfg, c, ArgsOf(call), clock)
        == SetEx(cfg, c, call.key, call.value, Seconds(call.ttl), clock);
  }

  lemma ExpireReply(cfg: Config, c: Cache, call: Call, clock: Clock)
    requires WellFormed(cfg, c) && FitsCall(call) && call.CallExpire?
    ensures Replies(call, Step(cfg, c, LastOp(call), clock(0)).1, HandleExpire(cfg, c, ArgsOf(call), clock))
  {
    DigitsFit(call.ttl);
  }

  // It is the reply of the server's dispatch, which knows the engine only through its answers.
  lemma ReplyIsDispatch(cfg: Config, c: Cache, call: Call, clock: Clock, info: Bytes)
    requires WellFormed(cfg, c) && FitsCall(call)
    ensures Replies(call, Step(cfg, Before(cfg, c, call, clock), LastOp(call), LastTime(call, clock)).1,
                    Dispatch(cfg, c, ArgsOf(call), clock, info))
  {
    DispatchFindsHandler(cfg, c, call, clock, info);
    match call
    case CallDelete(key) => DeleteReply(cfg, c, key, clock);
    case CallSetTtl(_, _, _) => SetTtlReply(cfg, c, call, clock);
    case CallExpire(_, _) => ExpireReply(cfg, c, call, clock);
    case _ =>
  }

  // The command goes out, the server parses it, replies, and the client reads the reply.
  function Told(call: Call, a: Answer): Result
    requires Suits(LastOp(call), a)
  {
    if ServerParser.Drain(ServerParser.AtStart, [] + Encode(ArgsOf(call)))
       != ServerParser.Session([ArgsOf(call)], ServerParser.Waiting(ServerParser.AtStart, [])) then Broken
    else
      match ReplyTo(call, a)
      case None => Broken
      case Some(v) =>
        match ReadValue(Print(v))
        case Ok(v', rest) => if rest == [] then Interpret(call, v') else Broken
        case Err(_) => Broken
  }

  // Answers within the range of what was stored.
  predicate InRange(a: Answer) {
    && (a.Value? && a.value.Some? ==> |a.value.value| <= ISIZE_MAX)
    && (a.Remaining? && a.status.ExpiresIn? ==> a.status.remaining <= INSTANT_MAX)
  }

  lemma OkPrintable()
    ensures Printable(Simple(Ascii("OK")))
  {
    TextPrintable("OK");
  }

  lemma EngineErrorPrintable()
    ensures Printable(ErrReply("engine error"))
  {
    ErrPrintable("engine error");
  }

  lemma ReplyPrintable(call: Call, a: Answer)
    requires Suits(LastOp(call), a) && InRange(a) && ReplyTo(call, a).Some?
    ensures Printable(ReplyTo(call, a).value)
  {
    OkPrintable();
    EngineErrorPrintable();
    if a.Remaining? && a.status.ExpiresIn? {
      SecondsInRange(a.status.remaining);
    }
  }

  lemma ReplyMeans(call: Call, a: Answer)
    requires Suits(LastOp(call), a) && InRange(a)
    ensures Meaning(call, a) == match ReplyTo(call, a)
                                case None => Broken
                                case Some(v) => Interpret(call, v)
  {
    if a.Remaining? && a.status.ExpiresIn? {
      SecondsInRange(a.status.remaining);
    }
  }

  // So the client is told what the answer means.
  lemma ToldIsMeaning(call: Call, a: Answer)
    requires FitsCall(call) && Suits(LastOp(call), a) && InRange(a)
    ensures Told(call, a) == Meaning(call, a)
  {
    CallFits(call);
    CommandArrives(ArgsOf(call));
    ReplyMeans(call, a);
    if ReplyTo(call, a).Some? {
      ReplyPrintable(call, a);
      PrintedReadsBack(ReplyTo(call, a).value, []);
      assert Print(ReplyTo(call, a).value) + [] == Print(ReplyTo(call, a).value);
    }
  }

  // ---------------------------------------------------------------------------------------
  // The map's answers are in range.

  predicate StoredFits(s: Stored) {
    |s.value| <= ISIZE_MAX && (s.deadline.Some? ==> s.deadline.value <= INSTANT_MAX)
  }

  predicate MapFits(m: Plain) {
    forall key :: key in m ==> StoredFits(m[key])
  }

  predicate OpFits(op: Op) {
    op.Set? ==> |op.value| <= ISIZE_MAX
  }

  lemma PlainStepFits(m: Plain, op: Op, now: nat)
    requires MapFits(m) && !op.Purge? && OpFits(op)
    ensures MapFits(PlainStep(m, op, now).0)
    ensures Suits(op, PlainStep(m, op, now).1) && InRange(PlainStep(m, op, now).1)
  {
  }

  lemma {:induction false} PlainAnswersFit(m: Plain, events: seq<Event>)
    requires MapFits(m) && forall i :: 0 <= i < |events| ==> !events[i].op.Purge? && OpFits(events[i].op)
    ensures |PlainAnswers(m, events)| == |events|
    ensures forall i :: 0 <= i < |events| ==>
              Suits(events[i].op, PlainAnswers(m, events)[i]) && InRange(PlainAnswers(m, events)[i])
    decreases |events|
  {
    if events != [] {
      var (m', a) := PlainStep(m, events[0].op, events[0].now);
      PlainStepFits(m, events[0].op, events[0].now);
      PlainAnswersFit(m', events[1..]);
      assert PlainAnswers(m, events) == [a] + PlainAnswers(m', events[1..]);
    }
  }

  // ---------------------------------------------------------------------------------------
  // Many clients.

  // `done` are the places in the log of the engine calls made so far for the call in progress, `upto`
  // the length of the log when the last engine call for this client returned, `since` what it was when
  // the call in progress was made.
  datatype Client = Client(busy: Option<Call>, done: seq<nat>, since: nat, upto: nat)

  datatype Report = Report(client: nat, call: Call, at: seq<nat>, since: nat, until: nat, result: Result)

  // Thread `t` of the engine serves client `t`; further threads are sweepers and callers in the process.
  datatype Net = Net(world: Linear.World, clients: seq<Client>, reports: seq<Report>)

  datatype Act = Request(call: Call) | Engine(deed: Linear.Deed) | Tell

  // The engine calls made for a client are those of its call, in order.
  predicate Serves(n: Net, t: nat, d: Linear.Deed) {
    match d
    case Invoke(op, _) =>
      if t < |n.clients| then
        && n.clients[t].busy.Some? && |n.clients[t].done| < |OpsOf(n.clients[t].busy.value)|
        && op == OpsOf(n.clients[t].busy.value)[|n.clients[t].done|]
      else OpFits(op)
    case BeginSweep(_) => t >= |n.clients|
    case _ => true
  }

  predicate Can(cfg: Config, n: Net, t: nat, act: Act) {
    match act
    case Request(call) => t < |n.clients| && n.clients[t].busy.None? && FitsCall(call)
    case Engine(d) => Linear.Can(cfg, n.world, t, d) && Serves(n, t, d)
    case Tell =>
      && t < |n.clients| && n.clients[t].busy.Some?
      && |n.clients[t].done| == |OpsOf(n.clients[t].busy.value)|
  }

  // What the client hears of the engine call at place `p` of the log.
  function Heard(log: seq<Linear.Logged>, call: Call, p: nat): Result {
    if p < |log| && Suits(LastOp(call), log[p].answer) then Told(call, log[p].answer) else Broken
  }

  function Noted(n: Net, t: nat, d: Linear.Deed): seq<Client> {
    if d.Return? && t < |n.clients| && t < |n.world.jobs| && n.world.jobs[t].Answered? then
      var c := n.clients[t];
      n.clients[t := c.(done := c.done + [n.world.jobs[t].at], upto := |n.world.log|)]
    else n.clients
  }

  function Next(cfg: Config, n: Net, t: nat, act: Act): Net
    requires Can(cfg, n, t, act)
  {
    match act
    case Request(call) =>
      var c := n.clients[t];
      n.(clients := n.clients[t := Client(Some(call), [], c.upto, c.upto)])
    case Engine(d) => n.(world := Linear.Perform(cfg, n.world, t, d), clients := Noted(n, t, d))
    case Tell =>
      var c := n.clients[t];
      var call, p := c.busy.value, c.done[|c.done| - 1];
      n.(clients := n.clients[t := Client(None, [], c.since, c.upto)],
         reports := n.reports + [Report(t, call, c.done, c.since, c.upto, Heard(n.world.log, call, p))])
  }

  // ---------------------------------------------------------------------------------------
  // The invariant.

  predicate Placed(log: seq<Linear.Logged>, call: Call, at: seq<nat>, since: nat, until: nat) {
    && |at| <= |OpsOf(call)| && until <= |log|
    && forall i :: 0 <= i < |at| ==> since <= at[i] < until && log[at[i]].call.op == OpsOf(call)[i]
  }

  predicate ClientOk(log: seq<Linear.Logged>, job: Linear.Job, c: Client) {
    && c.since <= c.upto <= |log|
    && match c.busy
       case None => job.Resting?
       case Some(call) =>
         && FitsCall(call) && Placed(log, call, c.done, c.since, c.upto)
         && (job.Resting? || (&& |c.done| < |OpsOf(call)| && !job.Sweeping?
                              && job.call.op == OpsOf(call)[|c.done|] && c.upto <= job.call.from))
  }

  ghost predicate ClientsOk(n: Net) {
    && |n.clients| <= |n.world.jobs|
    && forall t :: 0 <= t < |n.clients| ==> ClientOk(n.world.log, n.world.jobs[t], n.clients[t])
  }

  predicate ReportOk(log: seq<Linear.Logged>, r: Report) {
    && FitsCall(r.call) && |r.at| == |OpsOf(r.call)| && Placed(log, r.call, r.at, r.since, r.until)
    && r.result == Heard(log, r.call, r.at[|r.at| - 1])
  }

  ghost predicate ReportsOk(n: Net) {
    forall i :: 0 <= i < |n.reports| ==> ReportOk(n.world.log, n.reports[i])
  }

  // A client's calls take effect one after the other.
  predicate Follows(r: Report, r': Report) {
    r.client == r'.client ==> r.until <= r'.since
  }

  ghost predicate InSequence(n: Net) {
    && (forall i :: 0 <= i < |n.reports| ==>
          n.reports[i].client < |n.clients| && n.reports[i].until <= n.clients[n.reports[i].client].upto
          && (n.clients[n.reports[i].client].busy.Some? ==>
                n.reports[i].until <= n.clients[n.reports[i].client].since))
    && forall i, j :: 0 <= i < j < |n.reports| ==> Follows(n.reports[i], n.reports[j])
  }

  predicate LogFits(log: seq<Linear.Logged>) {
    forall i :: 0 <= i < |log| ==> !log[i].call.op.Purge? && OpFits(log[i].call.op)
  }

  ghost predicate PendingFit(w: Linear.World) {
    forall t :: 0 <= t < |w.jobs| && Linear.Pending(w.jobs[t]) ==>
      !w.jobs[t].call.op.Purge? && OpFits(w.jobs[t].call.op)
  }

  ghost predicate Fits(n: Net) {
    LogFits(n.world.log) && PendingFit(n.world)
  }

  // ---------------------------------------------------------------------------------------
  // A longer log changes nothing that was placed or heard.

  predicate Extends(log: seq<Linear.Logged>, log': seq<Linear.Logged>) {
    |log| <= |log'| && log'[..|log|] == log
  }

  lemma PlacedLater(log: seq<Linear.Logged>, log': seq<Linear.Logged>, call: Call, at: seq<nat>, since: nat, until: nat)
    requires Extends(log, log') && Placed(log, call, at, since, until)
    ensures Placed(log', call, at, since, until)
  {
    forall i | 0 <= i < |at| ensures log'[at[i]] == log[at[i]] {
      assert log'[..|log|][at[i]] == log[at[i]];
    }
  }

  lemma ReportLater(log: seq<Linear.Logged>, log': seq<Linear.Logged>, r: Report)
    requires Extends(log, log') && ReportOk(log, r)
    ensures ReportOk(log', r)
  {
    PlacedLater(log, log', r.call, r.at, r.since, r.until);
    var p := r.at[|r.at| - 1];
    assert log'[..|log|][p] == log[p];
  }

  lemma LogExtends(cfg: Config, w: Linear.World, t: nat, d: Linear.Deed)
    requires Linear.Can(cfg, w, t, d)
    ensures Extends(w.log, Linear.Perform(cfg, w, t, d).log)
  {
    Linear.LogKept(cfg, w, t, d);
    assert w.log[..|w.log|] == w.log;
  }

  // ---------------------------------------------------------------------------------------
  // Every step keeps the invariant.

  lemma EngineFits(cfg: Config, n: Net, t: nat, d: Linear.Deed)
    requires Fits(n) && ClientsOk(n) && Can(cfg, n, t, Engine(d))
    ensures Fits(Next(cfg, n, t, Engine(d)))
  {
    var w, w' := n.world, Linear.Perform(cfg, n.world, t, d);
    Linear.LogKept(cfg, w, t, d);
    assert LogFits(w'.log) by {
      forall i | 0 <= i < |w'.log| ensures !w'.log[i].call.op.Purge? && OpFits(w'.log[i].call.op) {
        if i < |w.log| {
          assert w'.log[..|w.log|][i] == w.log[i];
        }
      }
    }
    EnginePendingFit(cfg, n, t, d);
  }

  lemma InvokedFits(n: Net, t: nat, op: Op, now: nat)
    requires ClientsOk(n) && Serves(n, t, Linear.Invoke(op, now))
    ensures OpFits(op)
  {
    if t < |n.clients| {
      assert ClientOk(n.world.log, n.world.jobs[t], n.clients[t]);
    }
  }

  lemma EnginePendingFit(cfg: Config, n: Net, t: nat, d: Linear.Deed)
    requires PendingFit(n.world) && ClientsOk(n) && Can(cfg, n, t, Engine(d))
    ensures PendingFit(Linear.Perform(cfg, n.world, t, d))
  {
    if d.Invoke? {
      InvokedFits(n, t, d.op, d.now);
    }
    OthersKeepJobs(cfg, n.world, t, d);
    OwnJobKept(cfg, n.world, t, d);
  }

  lemma OthersKeepJobs(cfg: Config, w: Linear.World, t: nat, d: Linear.Deed)
    requires Linear.Can(cfg, w, t, d)
    ensures |Linear.Perform(cfg, w, t, d).jobs| == |w.jobs|
    ensures forall u :: 0 <= u < |w.jobs| && u != t ==> Linear.Perform(cfg, w, t, d).jobs[u] == w.jobs[u]
  {
  }

  // A thread keeps its call until it returns.
  lemma OwnJobKept(cfg: Config, w: Linear.World, t: nat, d: Linear.Deed)
    requires Linear.Can(cfg, w, t, d)
    ensures var job, job' := w.jobs[t], Linear.Perform(cfg, w, t, d).jobs[t];
            match d
            case Invoke(op, now) => job'.Waiting? && job'.call.op == op && job'.call.from == |w.log|
            case Do(_) =>
              if job.Sweeping? then job' == job
              else !job.Resting? && !job'.Resting? && !job'.Sweeping? && job'.call == job.call
                   && (Linear.Pending(job') ==> Linear.Pending(job))
            case Return => job'.Resting?
            case EndSweep => job'.Resting?
            case BeginSweep(_) => job'.Sweeping?
  {
  }

  lemma OtherClient(cfg: Config, n: Net, t: nat, d: Linear.Deed, u: nat)
    requires ClientsOk(n) && Can(cfg, n, t, Engine(d)) && u < |n.clients| && u != t
    ensures var n' := Next(cfg, n, t, Engine(d));
            |n'.world.jobs| == |n.world.jobs| && ClientOk(n'.world.log, n'.world.jobs[u], n'.clients[u])
  {
    OthersKeepJobs(cfg, n.world, t, d);
    LogExtends(cfg, n.world, t, d);
    var c := n.clients[u];
    assert ClientOk(n.world.log, n.world.jobs[u], c);
    if c.busy.Some? {
      PlacedLater(n.world.log, Linear.Perform(cfg, n.world, t, d).log, c.busy.value, c.done, c.since, c.upto);
    }
  }

  // An engine call returns: its place is after everything placed before, and it is the one asked for.
  lemma ReturnClient(cfg: Config, n: Net, t: nat)
    requires ClientsOk(n) && Linear.Orderly(n.world) && Can(cfg, n, t, Engine(Linear.Return)) && t < |n.clients|
    ensures ClientOk(n.world.log, Linear.Resting, Noted(n, t, Linear.Return)[t])
  {
    var c, job := n.clients[t], n.world.jobs[t];
    assert ClientOk(n.world.log, job, c);
    assert Linear.JobLogged(n.world, t, job);
    var done := c.done + [job.at];
    forall i | 0 <= i < |done|
      ensures c.since <= done[i] < |n.world.log|
      ensures n.world.log[done[i]].call.op == OpsOf(c.busy.value)[i]
    {
      if i < |c.done| {
        assert done[i] == c.done[i];
      }
    }
  }

  lemma OwnClient(cfg: Config, n: Net, t: nat, d: Linear.Deed)
    requires ClientsOk(n) && Linear.Orderly(n.world) && Can(cfg, n, t, Engine(d)) && t < |n.clients|
    ensures var n' := Next(cfg, n, t, Engine(d));
            |n'.world.jobs| == |n.world.jobs| && ClientOk(n'.world.log, n'.world.jobs[t], n'.clients[t])
  {
    OthersKeepJobs(cfg, n.world, t, d);
    OwnJobKept(cfg, n.world, t, d);
    var c := n.clients[t];
    assert ClientOk(n.world.log, n.world.jobs[t], c);
    if d.Return? {
      ReturnClient(cfg, n, t);
    } else {
      LogExtends(cfg, n.world, t, d);
      if c.busy.Some? {
        PlacedLater(n.world.log, Linear.Perform(cfg, n.world, t, d).log, c.busy.value, c.done, c.since, c.upto);
      }
    }
  }

  lemma EngineClientsOk(cfg: Config, n: Net, t: nat, d: Linear.Deed)
    requires ClientsOk(n) && Linear.Orderly(n.world) && Can(cfg, n, t, Engine(d))
    ensures ClientsOk(Next(cfg, n, t, Engine(d)))
  {
    var n' := Next(cfg, n, t, Engine(d));
    OthersKeepJobs(cfg, n.world, t, d);
    forall u | 0 <= u < |n'.clients| ensures ClientOk(n'.world.log, n'.world.jobs[u], n'.clients[u]) {
      if u == t {
        OwnClient(cfg, n, t, d);
      } else {
        OtherClient(cfg, n, t, d, u);
      }
    }
  }

  lemma EngineReportsOk(cfg: Config, n: Net, t: nat, d: Linear.Deed)
    requires ReportsOk(n) && Can(cfg, n, t, Engine(d))
    ensures ReportsOk(Next(cfg, n, t, Engine(d)))
  {
    LogExtends(cfg, n.world, t, d);
    forall i | 0 <= i < |n.reports| ensures ReportOk(Linear.Perform(cfg, n.world, t, d).log, n.reports[i]) {
      ReportLater(n.world.log, Linear.Perform(cfg, n.world, t, d).log, n.reports[i]);
    }
  }

  lemma EngineInSequence(cfg: Config, n: Net, t: nat, d: Linear.Deed)
    requires InSequence(n) && ClientsOk(n) && Can(cfg, n, t, Engine(d))
    ensures InSequence(Next(cfg, n, t, Engine(d)))
  {
    if t < |n.clients| {
      assert ClientOk(n.world.log, n.world.jobs[t], n.clients[t]);
    }
  }

  ghost predicate Inv(exact: bool, cfg: Config, n: Net) {
    && Linear.Faithful(exact, cfg, n.world) && Linear.Orderly(n.world)
    && Fits(n) && ClientsOk(n) && ReportsOk(n) && InSequence(n)
  }

  lemma EngineInv(exact: bool, cfg: Config, n: Net, t: nat, d: Linear.Deed)
    requires Inv(exact, cfg, n) && Can(cfg, n, t, Engine(d))
    requires exact ==> Unlimited(cfg) && Linear.PromptStep(cfg, n.world, t, d)
    ensures Inv(exact, cfg, Next(cfg, n, t, Engine(d)))
  {
    Linear.StepFaithful(exact, cfg, n.world, t, d);
    Linear.StepOrderly(cfg, n.world, t, d);
    EngineFits(cfg, n, t, d);
    EngineClientsOk(cfg, n, t, d);
    EngineReportsOk(cfg, n, t, d);
    EngineInSequence(cfg, n, t, d);
  }

  lemma RequestInv(exact: bool, cfg: Config, n: Net, t: nat, call: Call)
    requires Inv(exact, cfg, n) && Can(cfg, n, t, Request(call))
    ensures Inv(exact, cfg, Next(cfg, n, t, Request(call)))
  {
    var n' := Next(cfg, n, t, Request(call));
    forall u | 0 <= u < |n'.clients| ensures ClientOk(n'.world.log, n'.world.jobs[u], n'.clients[u]) {
      assert ClientOk(n.world.log, n.world.jobs[u], n.clients[u]);
    }
  }

  lemma TellClientsOk(cfg: Config, n: Net, t: nat)
    requires ClientsOk(n) && Can(cfg, n, t, Tell)
    ensures ClientsOk(Next(cfg, n, t, Tell))
  {
    var n' := Next(cfg, n, t, Tell);
    forall u | 0 <= u < |n'.clients| ensures ClientOk(n'.world.log, n'.world.jobs[u], n'.clients[u]) {
      assert ClientOk(n.world.log, n.world.jobs[u], n.clients[u]);
    }
  }

  lemma TellReportsOk(cfg: Config, n: Net, t: nat)
    requires ClientsOk(n) && ReportsOk(n) && Can(cfg, n, t, Tell)
    ensures ReportsOk(Next(cfg, n, t, Tell))
  {
    var n' := Next(cfg, n, t, Tell);
    assert ClientOk(n.world.log, n.world.jobs[t], n.clients[t]);
    forall i | 0 <= i < |n'.reports| ensures ReportOk(n'.world.log, n'.reports[i]) {
      if i < |n.reports| {
        assert ReportOk(n.world.log, n.reports[i]);
      }
    }
  }

  lemma TellInSequence(cfg: Config, n: Net, t: nat)
    requires ClientsOk(n) && InSequence(n) && Can(cfg, n, t, Tell)
    ensures InSequence(Next(cfg, n, t, Tell))
  {
    var n' := Next(cfg, n, t, Tell);
    assert ClientOk(n.world.log, n.world.jobs[t], n.clients[t]);
    forall i, j | 0 <= i < j < |n'.reports| ensures Follows(n'.reports[i], n'.reports[j]) {
      if j < |n.reports| {
        assert Follows(n.reports[i], n.reports[j]);
      }
    }
  }

  lemma TellInv(exact: bool, cfg: Config, n: Net, t: nat)
    requires Inv(exact, cfg, n) && Can(cfg, n, t, Tell)
    ensures Inv(exact, cfg, Next(cfg, n, t, Tell))
  {
    TellClientsOk(cfg, n, t);
    TellReportsOk(cfg, n, t);
    TellInSequence(cfg, n, t);
  }

  // ---------------------------------------------------------------------------------------
  // Runs.

  datatype Turn = Turn(thread: nat, act: Act)

  ghost predicate Initial(cfg: Config, n: Net) {
    && Linear.Beginning(cfg, n.world) && |n.clients| <= |n.world.jobs| && n.reports == []
    && forall t :: 0 <= t < |n.clients| ==> n.clients[t] == Client(None, [], 0, 0)
  }

  ghost predicate Run(cfg: Config, nets: seq<Net>, turns: seq<Turn>) {
    && |nets| == |turns| + 1
    && Initial(cfg, nets[0])
    && forall i :: 0 <= i < |turns| ==>
         Can(cfg, nets[i], turns[i].thread, turns[i].act)
         && nets[i + 1] == Next(cfg, nets[i], turns[i].thread, turns[i].act)
  }

  ghost predicate AllPrompt(cfg: Config, nets: seq<Net>, turns: seq<Turn>)
    requires |nets| == |turns| + 1
  {
    forall i :: 0 <= i < |turns| && turns[i].act.Engine? ==>
      Linear.PromptStep(cfg, nets[i].world, turns[i].thread, turns[i].act.deed)
  }

  lemma InitialInv(exact: bool, cfg: Config, n: Net)
    requires Initial(cfg, n)
    ensures Inv(exact, cfg, n)
  {
    Linear.BeginningFaithful(exact, cfg, n.world);
  }

  lemma StepInv(exact: bool, cfg: Config, n: Net, t: nat, act: Act)
    requires Inv(exact, cfg, n) && Can(cfg, n, t, act)
    requires exact && act.Engine? ==> Unlimited(cfg) && Linear.PromptStep(cfg, n.world, t, act.deed)
    ensures Inv(exact, cfg, Next(cfg, n, t, act))
  {
    match act
    case Request(call) => RequestInv(exact, cfg, n, t, call);
    case Engine(d) => EngineInv(exact, cfg, n, t, d);
    case Tell => TellInv(exact, cfg, n, t);
  }

  lemma {:induction false} RunInv(exact: bool, cfg: Config, nets: seq<Net>, turns: seq<Turn>, i: nat)
    requires Run(cfg, nets, turns) && i < |nets|
    requires exact ==> Unlimited(cfg) && AllPrompt(cfg, nets, turns)
    ensures Inv(exact, cfg, nets[i])
  {
    if i == 0 {
      InitialInv(exact, cfg, nets[0]);
    } else {
      RunInv(exact, cfg, nets, turns, i - 1);
      StepInv(exact, cfg, nets[i - 1], turns[i - 1].thread, turns[i - 1].act);
    }
  }

  // What a client was told, against the map's answer at the same place of the log.
  predicate LikeMap(exact: bool, log: seq<Linear.Logged>, r: Report) {
    && r.at != [] && r.at[|r.at| - 1] < |log| == |Linear.Expected(log)|
    && (|| r.result == Meaning(r.call, Linear.Expected(log)[r.at[|r.at| - 1]])
        || (!exact && r.result == Meaning(r.call, Miss(LastOp(r.call)))))
  }

  lemma AnswerFits(exact: bool, log: seq<Linear.Logged>, p: nat)
    requires Linear.AnswersOk(exact, log) && LogFits(log) && p < |log|
    ensures Suits(log[p].call.op, log[p].answer) && InRange(log[p].answer)
  {
    PlainAnswersFit(map[], Linear.Events(log));
    assert AnswerOk(exact, log[p].call.op, log[p].answer, Linear.Expected(log)[p]);
  }

  lemma HeardIsMeaning(exact: bool, log: seq<Linear.Logged>, call: Call, p: nat)
    requires Linear.AnswersOk(exact, log) && LogFits(log)
    requires FitsCall(call) && p < |log| && log[p].call.op == LastOp(call)
    ensures Heard(log, call, p) == Meaning(call, log[p].answer)
  {
    AnswerFits(exact, log, p);
    ToldIsMeaning(call, log[p].answer);
  }

  lemma ReportLikeMap(exact: bool, log: seq<Linear.Logged>, r: Report)
    requires Linear.AnswersOk(exact, log) && LogFits(log) && ReportOk(log, r)
    ensures LikeMap(exact, log, r)
  {
    var p := r.at[|r.at| - 1];
    HeardIsMeaning(exact, log, r.call, p);
    assert AnswerOk(exact, LastOp(r.call), log[p].answer, Linear.Expected(log)[p]);
  }

  // Whatever the interleaving of clients, sweeps and other callers, every result is the map's in the
  // order of effect or that of an absent key, and each client's calls take effect in the order it made
  // them.
  lemma ClientsNeverStale(cfg: Config, nets: seq<Net>, turns: seq<Turn>, i: nat, k: nat)
    requires Run(cfg, nets, turns) && i < |nets| && k < |nets[i].reports|
    ensures LikeMap(false, nets[i].world.log, nets[i].reports[k])
    ensures forall j :: 0 <= j < k && nets[i].reports[j].client == nets[i].reports[k].client ==>
              nets[i].reports[j].until <= nets[i].reports[k].since
    ensures forall q :: q in nets[i].reports[k].at ==> nets[i].reports[k].since <= q < nets[i].reports[k].until
  {
    RunInv(false, cfg, nets, turns, i);
    assert ReportOk(nets[i].world.log, nets[i].reports[k]);
    ReportLikeMap(false, nets[i].world.log, nets[i].reports[k]);
    forall j | 0 <= j < k ensures Follows(nets[i].reports[j], nets[i].reports[k]) {
    }
  }

  // Against an unlimited server whose engine calls are prompt, exactly the map's.
  lemma ClientsSeePlainMap(cfg: Config, nets: seq<Net>, turns: seq<Turn>, i: nat, k: nat)
    requires Run(cfg, nets, turns) && i < |nets| && k < |nets[i].reports|
    requires Unlimited(cfg) && AllPrompt(cfg, nets, turns)
    ensures LikeMap(true, nets[i].world.log, nets[i].reports[k])
  {
    RunInv(true, cfg, nets, turns, i);
    ReportLikeMap(true, nets[i].world.log, nets[i].reports[k]);
  }
}
