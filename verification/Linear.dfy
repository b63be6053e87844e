/**
 Answers under interleaving. Any number of threads call get, set, delete, expire and ttl and sweep, each
 as the program hkv-engine/src/memory.rs makes of the steps of Accounting.dfy: take the shard's lock,
 look, make one change, settle the counter, unlock, and after a set evict from whatever shards the scan
 meets. The calls are linearizable: each takes effect once, at one instant between its call and its
 return, and its answer is that of a plain map fed the calls in that order, or a miss.
 */
module Linear {
  import opened Base
  import opened Recency
  import opened Cache
  import opened PlainStore
  import opened Accounting
  import Masking

  // ---------------------------------------------------------------------------------------
  // Calls.

  // `from` is the length of the log at the moment of the call.
  datatype Call = Call(id: nat, op: Op, now: nat, from: nat)

  // What a thread is doing, beside its phase in Accounting.dfy.
  datatype Job =
    | Resting
    | Waiting(call: Call)               // called, the lock not yet taken
    | Inside(call: Call)                // holding the lock, about to look
    | Cleared(call: Call)               // a set that removed an expired entry and has still to insert
    | Answered(call: Call, at: nat)     // took effect as entry `at` of the log
    | Sweeping(asOf: nat)

  datatype Logged = Logged(call: Call, answer: Answer)

  // `to` is the length of the log at the moment of the return.
  datatype Finished = Finished(call: Call, at: nat, to: nat)

  // `clocks` holds, for each shard, the latest reading of any thread that locked it. `log` lists the calls in
  // the order in which they took effect, `callers` the thread of each call.
  datatype World = World(acc: State, jobs: seq<Job>, clocks: seq<nat>, log: seq<Logged>,
                         finished: seq<Finished>, callers: seq<nat>)

  datatype Deed =
    | Invoke(op: Op, now: nat)
    | BeginSweep(asOf: nat)
    | EndSweep
    | Do(action: Action)
    | Return

  predicate Aims(l: Recent, k: nat, key: Bytes) {
    k < |l| && l[k].key == key
  }

  // The step a call takes once it has found, or not found, its key.
  predicate Chooses(l: Recent, op: Op, now: nat, a: Action)
    requires !op.Purge?
  {
    match Find(l, op.key)
    case None => if op.Set? then a == Insert(Entry(op.key, op.value, None)) else a == Unlock
    case Some(e) =>
      if Expired(e, now) then a.Remove? && Aims(l, a.at, op.key)
      else
        match op
        case Get(key) => a.Touch? && Aims(l, a.at, key)
        case Set(key, value) => a.Rewrite? && Aims(l, a.at, key) && a.value == value
        case Delete(key) => a.Remove? && Aims(l, a.at, key)
        case Expire(key, ttl) =>
          if now + ttl <= INSTANT_MAX then a.Retime? && Aims(l, a.at, key) && a.deadline == now + ttl
          else a == Unlock
        case Ttl(key) => a == Unlock
  }

  // The program of each job.
  predicate Programmed(cfg: Config, acc: State, job: Job, p: Phase, a: Action) {
    match job
    case Resting => false
    case Waiting(call) => !call.op.Purge? && a == Lock(ShardOf(cfg, call.op.key))
    case Inside(call) =>
      && !call.op.Purge? && ShardOf(cfg, call.op.key) < |acc.shards|
      && Chooses(acc.shards[ShardOf(cfg, call.op.key)], call.op, call.now, a)
    case Cleared(call) => call.op.Set? && (a == Commit || a == Insert(Entry(call.op.key, call.op.value, None)))
    case Answered(_, _) => a.Commit? || a.Unlock? || a.Load? || a.Claim? || a.Visit?
    case Sweeping(asOf) =>
      || a.Lock? || a.Commit? || a.Unlock?
      || (&& a.Remove? && p.Holding? && p.shard < |acc.shards| && a.at < |acc.shards[p.shard]|
          && Expired(acc.shards[p.shard][a.at], asOf))
  }

  predicate Can(cfg: Config, w: World, t: nat, d: Deed) {
    && t < |w.jobs| == |w.acc.threads| && |w.clocks| == |w.acc.shards|
    && match d
       case Invoke(op, _) => w.jobs[t].Resting? && !op.Purge?
       case BeginSweep(_) => w.jobs[t].Resting?
       case EndSweep => w.jobs[t].Sweeping? && w.acc.threads[t].Idle?
       case Do(a) => Enabled(cfg, w.acc, t, a) && Programmed(cfg, w.acc, w.jobs[t], w.acc.threads[t], a)
       case Return => w.jobs[t].Answered? && w.acc.threads[t].Idle?
  }

  function Rejob(w: World, t: nat, job: Job): World
    requires t < |w.jobs|
  {
    w.(jobs := w.jobs[t := job])
  }

  function Tick(clocks: seq<nat>, i: nat, now: nat): seq<nat>
    requires i < |clocks|
  {
    if clocks[i] < now then clocks[i := now] else clocks
  }

  // A call takes effect.
  function Log(w: World, t: nat, call: Call, answer: Answer): World
    requires t < |w.jobs|
  {
    Rejob(w, t, Answered(call, |w.log|)).(log := w.log + [Logged(call, answer)])
  }

  // What a step of Accounting.dfy means for the job that takes it.
  function Advance(cfg: Config, w: World, t: nat, a: Action): World
    requires Can(cfg, w, t, Do(a))
  {
    match w.jobs[t]
    case Waiting(call) => Rejob(w, t, Inside(call)).(clocks := Tick(w.clocks, a.shard, call.now))
    case Inside(call) =>
      if call.op.Set? && a.Remove? then Rejob(w, t, Cleared(call))
      else Log(w, t, call, OnShard(w.acc.shards[ShardOf(cfg, call.op.key)], call.op, call.now).1)
    case Cleared(call) => if a.Insert? then Log(w, t, call, Done) else w
    case Answered(_, _) => w
    case Sweeping(asOf) => if a.Lock? then w.(clocks := Tick(w.clocks, a.shard, asOf)) else w
  }

  function Perform(cfg: Config, w: World, t: nat, d: Deed): World
    requires Can(cfg, w, t, d)
  {
    match d
    case Invoke(op, now) =>
      Rejob(w, t, Waiting(Call(|w.callers|, op, now, |w.log|))).(callers := w.callers + [t])
    case BeginSweep(asOf) => Rejob(w, t, Sweeping(asOf))
    case EndSweep => Rejob(w, t, Resting)
    case Do(a) => Advance(cfg, w, t, a).(acc := Apply(cfg, w.acc, t, a))
    case Return =>
      Rejob(w, t, Resting).(finished := w.finished + [Finished(w.jobs[t].call, w.jobs[t].at, |w.log|)])
  }

  datatype Stride = Stride(thread: nat, deed: Deed)

  ghost predicate Beginning(cfg: Config, w: World) {
    && Initial(cfg, w.acc)
    && |w.jobs| == |w.acc.threads| && (forall t :: 0 <= t < |w.jobs| ==> w.jobs[t] == Resting)
    && |w.clocks| == |w.acc.shards|
    && w.log == [] && w.finished == [] && w.callers == []
  }

  ghost predicate History(cfg: Config, worlds: seq<World>, steps: seq<Stride>) {
    && |worlds| == |steps| + 1
    && Beginning(cfg, worlds[0])
    && forall i :: 0 <= i < |steps| ==>
         && Can(cfg, worlds[i], steps[i].thread, steps[i].deed)
         && worlds[i + 1] == Perform(cfg, worlds[i], steps[i].thread, steps[i].deed)
  }

  // ---------------------------------------------------------------------------------------
  // The plain map behind the log.

  function Events(log: seq<Logged>): (r: seq<Event>)
    ensures |r| == |log|
    ensures forall i :: 0 <= i < |log| ==> r[i] == Event(log[i].call.now, log[i].call.op)
  {
    seq(|log|, i requires 0 <= i < |log| => Event(log[i].call.now, log[i].call.op))
  }

  function PlainAfter(m: Plain, events: seq<Event>): Plain
    decreases |events|
  {
    if events == [] then m
    else if events[0].op.Purge? then PlainAfter(m, events[1..])
    else PlainAfter(PlainStep(m, events[0].op, events[0].now).0, events[1..])
  }

  lemma {:induction false} PlainSnoc(m: Plain, events: seq<Event>, e: Event)
    requires !e.op.Purge?
    ensures PlainAnswers(m, events + [e]) == PlainAnswers(m, events) + [PlainStep(PlainAfter(m, events), e.op, e.now).1]
    ensures PlainAfter(m, events + [e]) == PlainStep(PlainAfter(m, events), e.op, e.now).0
    decreases |events|
  {
    if events == [] {
      assert [e][1..] == [];
    } else {
      assert (events + [e])[1..] == events[1..] + [e];
      if events[0].op.Purge? {
        PlainSnoc(m, events[1..], e);
      } else {
        var (m', a) := PlainStep(m, events[0].op, events[0].now);
        PlainSnoc(m', events[1..], e);
        Assoc([a], PlainAnswers(m', events[1..]), [PlainStep(PlainAfter(m', events[1..]), e.op, e.now).1]);
      }
    }
  }

  function MapOf(log: seq<Logged>): Plain {
    PlainAfter(map[], Events(log))
  }

  // What the plain map answers to the logged calls.
  function Expected(log: seq<Logged>): seq<Answer> {
    PlainAnswers(map[], Events(log))
  }

  predicate AnswersOk(exact: bool, log: seq<Logged>) {
    && |Expected(log)| == |log|
    && forall i :: 0 <= i < |log| ==> AnswerOk(exact, log[i].call.op, log[i].answer, Expected(log)[i])
  }

  lemma LogSnoc(exact: bool, log: seq<Logged>, call: Call, answer: Answer)
    requires AnswersOk(exact, log) && !call.op.Purge?
    requires AnswerOk(exact, call.op, answer, PlainStep(MapOf(log), call.op, call.now).1)
    ensures AnswersOk(exact, log + [Logged(call, answer)])
    ensures MapOf(log + [Logged(call, answer)]) == PlainStep(MapOf(log), call.op, call.now).0
  {
    assert Events(log + [Logged(call, answer)]) == Events(log) + [Event(call.now, call.op)];
    PlainSnoc(map[], Events(log), Event(call.now, call.op));
  }

  // ---------------------------------------------------------------------------------------
  // The shards against the map.

  // A stored entry is the map's. An absent one may have been evicted; `exact` says that it was not, and
  // then the map has none either or its entry was over at the latest reading the shard has seen.
  predicate Mirror(exact: bool, found: Option<Entry>, m: Plain, key: Bytes, clock: nat) {
    match found
    case Some(e) => key in m && m[key] == Stored(e.value, e.deadline)
    case None => exact && key in m ==> Gone(m[key], clock)
  }

  ghost predicate Mirrors(exact: bool, cfg: Config, shards: seq<Recent>, clocks: seq<nat>, m: Plain) {
    && |shards| == |clocks| == cfg.mask + 1
    && forall key :: Mirror(exact, Find(shards[ShardOf(cfg, key)], key), m, key, clocks[ShardOf(cfg, key)])
  }

  lemma OnShardFind(l: Recent, op: Op, now: nat, key: Bytes)
    requires !op.Purge? && key != op.key
    ensures Find(OnShard(l, op, now).0, key) == Find(l, key)
  {
    FindWithout(l, op.key, key);
    match op
    case Get(k) =>
      if Live(l, k, now).Some? {
        FindAppend(Without(l, k), [Live(l, k, now).value], key);
      }
    case Set(k, v) => FindAppend(Without(l, k), [Entry(k, v, None)], key);
    case Expire(k, ttl) => FindWithDeadline(l, k, now + ttl, key);
    case _ =>
  }

  // A call other than a set does not read the clock before a deadline of its own key that the shard has
  // already seen pass.
  predicate Prompt(m: Plain, op: Op, now: nat, clock: nat)
    requires !op.Purge?
  {
    !op.Set? && op.key in m && Gone(m[op.key], clock) ==> Gone(m[op.key], now)
  }

  lemma OnShardOwnKey(exact: bool, l: Recent, m: Plain, op: Op, now: nat, clock: nat)
    requires !op.Purge? && Mirror(exact, Find(l, op.key), m, op.key, clock) && now <= clock
    requires exact ==> Prompt(m, op, now, clock)
    ensures Mirror(exact, Find(OnShard(l, op, now).0, op.key), PlainStep(m, op, now).0, op.key, clock)
    ensures AnswerOk(exact, op, OnShard(l, op, now).1, PlainStep(m, op, now).1)
  {
    FindWithout(l, op.key, op.key);
    match op
    case Get(k) =>
      if Live(l, k, now).Some? {
        FindAppend(Without(l, k), [Live(l, k, now).value], k);
      }
    case Set(k, v) => FindAppend(Without(l, k), [Entry(k, v, None)], k);
    case Expire(k, ttl) => FindWithDeadline(l, k, now + ttl, k);
    case _ =>
  }

  // A whole operation on its shard, at a reading the shard has seen.
  lemma OnShardMirrors(exact: bool, cfg: Config, shards: seq<Recent>, clocks: seq<nat>, m: Plain, op: Op, now: nat)
    requires Mirrors(exact, cfg, shards, clocks, m) && !op.Purge? && now <= clocks[ShardOf(cfg, op.key)]
    requires exact ==> Prompt(m, op, now, clocks[ShardOf(cfg, op.key)])
    ensures var i := ShardOf(cfg, op.key);
            && Mirrors(exact, cfg, shards[i := OnShard(shards[i], op, now).0], clocks, PlainStep(m, op, now).0)
            && AnswerOk(exact, op, OnShard(shards[i], op, now).1, PlainStep(m, op, now).1)
  {
    var i := ShardOf(cfg, op.key);
    var shards', m' := shards[i := OnShard(shards[i], op, now).0], PlainStep(m, op, now).0;
    assert Mirror(exact, Find(shards[i], op.key), m, op.key, clocks[i]);
    OnShardOwnKey(exact, shards[i], m, op, now, clocks[i]);
    forall key ensures Mirror(exact, Find(shards'[ShardOf(cfg, key)], key), m', key, clocks[ShardOf(cfg, key)]) {
      if key != op.key {
        assert Mirror(exact, Find(shards[ShardOf(cfg, key)], key), m, key, clocks[ShardOf(cfg, key)]);
        OnShardFind(shards[i], op, now, key);
      }
    }
  }

  lemma FindDropped(l: Recent, k: nat, key: Bytes)
    requires DistinctKeys(l) && k < |l|
    ensures Find(DropAt(l, k), key) == if key == l[k].key then None else Find(l, key)
  {
    WithoutAt(l, k);
    FindWithout(l, l[k].key, key);
  }

  // An entry goes that the map may keep: it was over by then, or eviction is allowed to forget.
  lemma DropMirrors(exact: bool, cfg: Config, shards: seq<Recent>, clocks: seq<nat>, m: Plain, i: nat, k: nat)
    requires Mirrors(exact, cfg, shards, clocks, m) && i < |shards| && DistinctKeys(shards[i]) && k < |shards[i]|
    requires exact ==> Expired(shards[i][k], clocks[i])
    ensures Mirrors(exact, cfg, shards[i := DropAt(shards[i], k)], clocks, m)
  {
    var l, shards' := shards[i], shards[i := DropAt(shards[i], k)];
    FindAt(l, k);
    forall key ensures Mirror(exact, Find(shards'[ShardOf(cfg, key)], key), m, key, clocks[ShardOf(cfg, key)]) {
      assert Mirror(exact, Find(shards[ShardOf(cfg, key)], key), m, key, clocks[ShardOf(cfg, key)]);
      FindDropped(l, k, key);
    }
  }

  // A later reading changes nothing.
  lemma TickMirrors(exact: bool, cfg: Config, shards: seq<Recent>, clocks: seq<nat>, m: Plain, i: nat, now: nat)
    requires Mirrors(exact, cfg, shards, clocks, m) && i < |clocks|
    ensures Mirrors(exact, cfg, shards, Tick(clocks, i, now), m)
  {
    var clocks' := Tick(clocks, i, now);
    forall key ensures Mirror(exact, Find(shards[ShardOf(cfg, key)], key), m, key, clocks'[ShardOf(cfg, key)]) {
      assert Mirror(exact, Find(shards[ShardOf(cfg, key)], key), m, key, clocks[ShardOf(cfg, key)]);
    }
  }

  // ---------------------------------------------------------------------------------------
  // The invariant.

  // Where a job is, and what it relies on while it holds its lock.
  predicate JobOk(cfg: Config, acc: State, clocks: seq<nat>, job: Job, p: Phase) {
    match job
    case Resting => p.Idle?
    case Waiting(call) => p.Idle? && !call.op.Purge?
    case Inside(call) =>
      && !call.op.Purge?
      && var i := ShardOf(cfg, call.op.key);
         p == Holding(i, false) && i < |clocks| && call.now <= clocks[i]
    case Cleared(call) =>
      && call.op.Set?
      && var i := ShardOf(cfg, call.op.key);
         && (p.Holding? || p.Subtracting?) && p.shard == i
         && i < |acc.shards| == |clocks| && call.now <= clocks[i] && Find(acc.shards[i], call.op.key).None?
    case Answered(_, _) => true
    case Sweeping(asOf) =>
      p.Idle? || ((p.Holding? || p.Subtracting?) && !p.evicts && p.shard < |clocks| && asOf <= clocks[p.shard])
  }

  ghost predicate JobsOk(cfg: Config, w: World) {
    && |w.jobs| == |w.acc.threads|
    && forall t :: 0 <= t < |w.jobs| ==> JobOk(cfg, w.acc, w.clocks, w.jobs[t], w.acc.threads[t])
  }

  ghost predicate AllDistinct(shards: seq<Recent>) {
    forall i :: 0 <= i < |shards| ==> DistinctKeys(shards[i])
  }

  predicate Evicting(p: Phase) {
    p.Claiming? || p.Scanning? || p.Evicted?
  }

  ghost predicate NoneEvicting(threads: seq<Phase>) {
    forall t :: 0 <= t < |threads| ==> !Evicting(threads[t])
  }

  // `exact` is claimed of engines without a limit only.
  ghost predicate Faithful(exact: bool, cfg: Config, w: World) {
    && Accounted(w.acc) && AllDistinct(w.acc.shards) && JobsOk(cfg, w)
    && (exact ==> NoneEvicting(w.acc.threads))
    && Mirrors(exact, cfg, w.acc.shards, w.clocks, MapOf(w.log))
    && AnswersOk(exact, w.log)
  }

  // Wherever a call takes effect, it is prompt.
  predicate PromptStep(cfg: Config, w: World, t: nat, d: Deed) {
    d.Do? && t < |w.jobs| && w.jobs[t].Inside? && !w.jobs[t].call.op.Purge? ==>
      var call := w.jobs[t].call;
      ShardOf(cfg, call.op.key) < |w.clocks| ==>
        Prompt(MapOf(w.log), call.op, call.now, w.clocks[ShardOf(cfg, call.op.key)])
  }

  // ---------------------------------------------------------------------------------------
  // A step does not reach under the lock of another thread.

  lemma LockShelters(cfg: Config, acc: State, t: nat, a: Action, u: nat, i: nat)
    requires LocksAgree(acc) && Enabled(cfg, acc, t, a)
    requires u < |acc.threads| && u != t && Held(acc.threads[u]) == Some(i)
    ensures i < |acc.shards| && Apply(cfg, acc, t, a).shards[i] == acc.shards[i]
    ensures a.Lock? ==> a.shard != i
  {
    assert acc.locks[i] == Some(u);
    assert Held(acc.threads[t]) != Some(i);
  }

  // Locks and sweeps set the clock of the shard they take; nothing else does.
  lemma ClockShelters(cfg: Config, w: World, t: nat, a: Action, i: nat)
    requires Can(cfg, w, t, Do(a)) && i < |w.clocks| && (a.Lock? ==> a.shard != i)
    ensures |Advance(cfg, w, t, a).clocks| == |w.clocks| && Advance(cfg, w, t, a).clocks[i] == w.clocks[i]
  {
  }

  lemma OthersKept(cfg: Config, w: World, t: nat, a: Action, u: nat)
    requires Can(cfg, w, t, Do(a)) && u < |w.jobs| && u != t
    ensures |Apply(cfg, w.acc, t, a).threads| == |w.acc.threads| && |Apply(cfg, w.acc, t, a).shards| == |w.acc.shards|
    ensures Apply(cfg, w.acc, t, a).threads[u] == w.acc.threads[u]
    ensures |Advance(cfg, w, t, a).jobs| == |w.jobs| && Advance(cfg, w, t, a).jobs[u] == w.jobs[u]
    ensures |Advance(cfg, w, t, a).clocks| == |w.clocks|
  {
  }

  // A job relies on nothing beyond the shard it holds.
  lemma JobStable(cfg: Config, acc: State, clocks: seq<nat>, acc': State, clocks': seq<nat>, job: Job, p: Phase)
    requires JobOk(cfg, acc, clocks, job, p)
    requires |acc.shards| == |acc'.shards| == |clocks| == |clocks'|
    requires Held(p).Some? && Held(p).value < |clocks| ==>
               clocks'[Held(p).value] == clocks[Held(p).value] &&
                   acc'.shards[Held(p).value] == acc.shards[Held(p).value]
    ensures JobOk(cfg, acc', clocks', job, p)
  {
  }

  lemma OtherJobs(cfg: Config, w: World, t: nat, a: Action, u: nat)
    requires Accounted(w.acc) && JobsOk(cfg, w) && Can(cfg, w, t, Do(a)) && u < |w.jobs| && u != t
    ensures var w' := Perform(cfg, w, t, Do(a));
            && |w'.jobs| == |w'.acc.threads| == |w.jobs|
            && JobOk(cfg, w'.acc, w'.clocks, w'.jobs[u], w'.acc.threads[u])
  {
    var p, job := w.acc.threads[u], w.jobs[u];
    var acc', clocks' := Apply(cfg, w.acc, t, a), Advance(cfg, w, t, a).clocks;
    OthersKept(cfg, w, t, a, u);
    if Held(p).Some? {
      LockShelters(cfg, w.acc, t, a, u, Held(p).value);
      ClockShelters(cfg, w, t, a, Held(p).value);
    }
    JobStable(cfg, w.acc, w.clocks, acc', clocks', job, p);
  }

  // ---------------------------------------------------------------------------------------
  // The change a call makes is the operation of Recency.dfy.

  lemma AimedAt(l: Recent, k: nat, key: Bytes)
    requires DistinctKeys(l) && Aims(l, k, key)
    ensures Find(l, key) == Some(l[k]) && Without(l, key) == DropAt(l, k)
  {
    FindAt(l, k);
    WithoutAt(l, k);
  }

  lemma ChoiceIsOperation(cfg: Config, acc: State, t: nat, op: Op, now: nat, a: Action)
    requires Enabled(cfg, acc, t, a) && !op.Purge?
    requires acc.threads[t] == Holding(ShardOf(cfg, op.key), false)
    requires var l := acc.shards[ShardOf(cfg, op.key)];
             DistinctKeys(l) && Chooses(l, op, now, a) && !(op.Set? && a.Remove?)
    ensures var i := ShardOf(cfg, op.key);
            Apply(cfg, acc, t, a).shards == acc.shards[i := OnShard(acc.shards[i], op, now).0]
  {
    var i := ShardOf(cfg, op.key);
    var l := acc.shards[i];
    if Find(l, op.key).None? {
      WithoutAbsent(l, op.key);
    } else if a.Remove? || a.Touch? || a.Rewrite? || a.Retime? {
      AimedAt(l, a.at, op.key);
      if a.Retime? {
        WithDeadlineAt(l, a.at, now + op.ttl);
      }
    }
  }

  lemma DropDistinct(l: Recent, k: nat)
    requires DistinctKeys(l) && k < |l|
    ensures DistinctKeys(DropAt(l, k)) && Find(DropAt(l, k), l[k].key).None?
  {
    WithoutAt(l, k);
    WithoutDistinct(l, l[k].key);
    FindWithout(l, l[k].key, l[k].key);
  }

  lemma StepDistinct(cfg: Config, acc: State, t: nat, a: Action)
    requires AllDistinct(acc.shards) && Enabled(cfg, acc, t, a)
    ensures AllDistinct(Apply(cfg, acc, t, a).shards)
  {
    var p := acc.threads[t];
    match a
    case Remove(k) => DropDistinct(acc.shards[p.shard], k);
    case Insert(e) => AppendDistinct(acc.shards[p.shard], e);
    case Rewrite(k, value) =>
      var l := acc.shards[p.shard];
      DropDistinct(l, k);
      AppendDistinct(DropAt(l, k), Entry(l[k].key, value, None));
    case Touch(k) =>
      var l := acc.shards[p.shard];
      DropDistinct(l, k);
      AppendDistinct(DropAt(l, k), l[k]);
    case Retime(k, deadline) =>
      var l := acc.shards[p.shard];
      WithDeadlineAt(l, k, deadline);
      WithDeadlineDistinct(l, l[k].key, deadline);
    case _ =>
  }

  // ---------------------------------------------------------------------------------------
  // Each kind of step keeps the shards and the log faithful to the map.

  ghost predicate LogFaithful(exact: bool, cfg: Config, w: World) {
    Mirrors(exact, cfg, w.acc.shards, w.clocks, MapOf(w.log)) && AnswersOk(exact, w.log)
  }

  lemma WaitingStep(exact: bool, cfg: Config, w: World, t: nat, a: Action)
    requires Faithful(exact, cfg, w) && Can(cfg, w, t, Do(a)) && w.jobs[t].Waiting?
    ensures LogFaithful(exact, cfg, Perform(cfg, w, t, Do(a)))
  {
    TickMirrors(exact, cfg, w.acc.shards, w.clocks, MapOf(w.log), a.shard, w.jobs[t].call.now);
  }

  // A call looks, acts and so takes effect.
  lemma InsideStep(exact: bool, cfg: Config, w: World, t: nat, a: Action)
    requires Faithful(exact, cfg, w) && Can(cfg, w, t, Do(a)) && w.jobs[t].Inside?
    requires exact ==> PromptStep(cfg, w, t, Do(a))
    ensures LogFaithful(exact, cfg, Perform(cfg, w, t, Do(a)))
  {
    var call := w.jobs[t].call;
    var i := ShardOf(cfg, call.op.key);
    assert JobOk(cfg, w.acc, w.clocks, w.jobs[t], w.acc.threads[t]);
    if call.op.Set? && a.Remove? {
      AimedAt(w.acc.shards[i], a.at, call.op.key);
      DropMirrors(exact, cfg, w.acc.shards, w.clocks, MapOf(w.log), i, a.at);
    } else {
      ChoiceIsOperation(cfg, w.acc, t, call.op, call.now, a);
      OnShardMirrors(exact, cfg, w.acc.shards, w.clocks, MapOf(w.log), call.op, call.now);
      LogSnoc(exact, w.log, call, OnShard(w.acc.shards[i], call.op, call.now).1);
    }
  }

  lemma ClearedStep(exact: bool, cfg: Config, w: World, t: nat, a: Action)
    requires Faithful(exact, cfg, w) && Can(cfg, w, t, Do(a)) && w.jobs[t].Cleared?
    ensures LogFaithful(exact, cfg, Perform(cfg, w, t, Do(a)))
  {
    var call := w.jobs[t].call;
    var i := ShardOf(cfg, call.op.key);
    assert JobOk(cfg, w.acc, w.clocks, w.jobs[t], w.acc.threads[t]);
    if a.Insert? {
      WithoutAbsent(w.acc.shards[i], call.op.key);
      OnShardMirrors(exact, cfg, w.acc.shards, w.clocks, MapOf(w.log), call.op, call.now);
      LogSnoc(exact, w.log, call, Done);
    }
  }

  // Eviction pops from a shard nobody holds.
  lemma VisitMirrors(cfg: Config, acc: State, clocks: seq<nat>, m: Plain, t: nat)
    requires Mirrors(false, cfg, acc.shards, clocks, m) && AllDistinct(acc.shards) && Enabled(cfg, acc, t, Visit)
    ensures Mirrors(false, cfg, Apply(cfg, acc, t, Visit).shards, clocks, m)
  {
    var p := acc.threads[t];
    var i := Masking.Visited(p.start, p.offset, cfg.mask);
    if acc.shards[i] != [] {
      assert DropAt(acc.shards[i], 0) == acc.shards[i][1..];
      DropMirrors(false, cfg, acc.shards, clocks, m, i, 0);
    }
  }

  lemma ShardsKept(cfg: Config, acc: State, t: nat, a: Action)
    requires Enabled(cfg, acc, t, a) && (a.Commit? || a.Unlock? || a.Load? || a.Claim?)
    ensures Apply(cfg, acc, t, a).shards == acc.shards
  {
  }

  // Settling the counter, unlocking and evicting.
  lemma AnsweredStep(exact: bool, cfg: Config, w: World, t: nat, a: Action)
    requires Faithful(exact, cfg, w) && Can(cfg, w, t, Do(a)) && w.jobs[t].Answered?
    ensures LogFaithful(exact, cfg, Perform(cfg, w, t, Do(a)))
  {
    if a.Visit? {
      assert Evicting(w.acc.threads[t]);
      VisitMirrors(cfg, w.acc, w.clocks, MapOf(w.log), t);
    } else {
      ShardsKept(cfg, w.acc, t, a);
    }
  }

  lemma SweepingStep(exact: bool, cfg: Config, w: World, t: nat, a: Action)
    requires Faithful(exact, cfg, w) && Can(cfg, w, t, Do(a)) && w.jobs[t].Sweeping?
    ensures LogFaithful(exact, cfg, Perform(cfg, w, t, Do(a)))
  {
    assert JobOk(cfg, w.acc, w.clocks, w.jobs[t], w.acc.threads[t]);
    if a.Lock? {
      TickMirrors(exact, cfg, w.acc.shards, w.clocks, MapOf(w.log), a.shard, w.jobs[t].asOf);
    } else if a.Remove? {
      DropMirrors(exact, cfg, w.acc.shards, w.clocks, MapOf(w.log), w.acc.threads[t].shard, a.at);
    }
  }

  lemma DoLogFaithful(exact: bool, cfg: Config, w: World, t: nat, a: Action)
    requires Faithful(exact, cfg, w) && Can(cfg, w, t, Do(a))
    requires exact ==> PromptStep(cfg, w, t, Do(a))
    ensures LogFaithful(exact, cfg, Perform(cfg, w, t, Do(a)))
  {
    match w.jobs[t]
    case Waiting(_) => WaitingStep(exact, cfg, w, t, a);
    case Inside(_) => InsideStep(exact, cfg, w, t, a);
    case Cleared(_) => ClearedStep(exact, cfg, w, t, a);
    case Answered(_, _) => AnsweredStep(exact, cfg, w, t, a);
    case Sweeping(_) => SweepingStep(exact, cfg, w, t, a);
  }

  lemma OwnWaiting(cfg: Config, w: World, t: nat, a: Action)
    requires JobsOk(cfg, w) && Can(cfg, w, t, Do(a)) && w.jobs[t].Waiting?
    ensures JobOk(cfg, Apply(cfg, w.acc, t, a), Advance(cfg, w, t, a).clocks, Advance(cfg, w, t, a).jobs[t],
                  Apply(cfg, w.acc, t, a).threads[t])
  {
  }

  lemma OwnInside(cfg: Config, w: World, t: nat, a: Action)
    requires AllDistinct(w.acc.shards) && JobsOk(cfg, w) && Can(cfg, w, t, Do(a)) && w.jobs[t].Inside?
    ensures JobOk(cfg, Apply(cfg, w.acc, t, a), Advance(cfg, w, t, a).clocks, Advance(cfg, w, t, a).jobs[t],
                  Apply(cfg, w.acc, t, a).threads[t])
  {
    var job := w.jobs[t];
    assert JobOk(cfg, w.acc, w.clocks, job, w.acc.threads[t]);
    if job.call.op.Set? && a.Remove? {
      DropDistinct(w.acc.shards[ShardOf(cfg, job.call.op.key)], a.at);
    }
  }

  lemma OwnLater(cfg: Config, w: World, t: nat, a: Action)
    requires JobsOk(cfg, w) && Can(cfg, w, t, Do(a))
    requires w.jobs[t].Cleared? || w.jobs[t].Answered? || w.jobs[t].Sweeping?
    ensures JobOk(cfg, Apply(cfg, w.acc, t, a), Advance(cfg, w, t, a).clocks, Advance(cfg, w, t, a).jobs[t],
                  Apply(cfg, w.acc, t, a).threads[t])
  {
    assert JobOk(cfg, w.acc, w.clocks, w.jobs[t], w.acc.threads[t]);
  }

  lemma OwnJob(cfg: Config, w: World, t: nat, a: Action)
    requires AllDistinct(w.acc.shards) && JobsOk(cfg, w) && Can(cfg, w, t, Do(a))
    ensures JobOk(cfg, Apply(cfg, w.acc, t, a), Advance(cfg, w, t, a).clocks, Advance(cfg, w, t, a).jobs[t],
                  Apply(cfg, w.acc, t, a).threads[t])
  {
    if w.jobs[t].Waiting? {
      OwnWaiting(cfg, w, t, a);
    } else if w.jobs[t].Inside? {
      OwnInside(cfg, w, t, a);
    } else {
      OwnLater(cfg, w, t, a);
    }
  }

  lemma DoJobsOk(cfg: Config, w: World, t: nat, a: Action)
    requires Accounted(w.acc) && AllDistinct(w.acc.shards) && JobsOk(cfg, w) && Can(cfg, w, t, Do(a))
    ensures JobsOk(cfg, Perform(cfg, w, t, Do(a)))
  {
    var w' := Perform(cfg, w, t, Do(a));
    forall u | 0 <= u < |w'.jobs| ensures JobOk(cfg, w'.acc, w'.clocks, w'.jobs[u], w'.acc.threads[u]) {
      if u == t {
        OwnJob(cfg, w, t, a);
      } else {
        OtherJobs(cfg, w, t, a, u);
      }
    }
  }

  lemma DoNoneEvicting(cfg: Config, acc: State, t: nat, a: Action)
    requires Enabled(cfg, acc, t, a) && Unlimited(cfg) && NoneEvicting(acc.threads)
    ensures NoneEvicting(Apply(cfg, acc, t, a).threads)
  {
    assert !Evicting(acc.threads[t]);
  }

  lemma DoFaithful(exact: bool, cfg: Config, w: World, t: nat, a: Action)
    requires Faithful(exact, cfg, w) && Can(cfg, w, t, Do(a))
    requires exact ==> Unlimited(cfg) && PromptStep(cfg, w, t, Do(a))
    ensures Faithful(exact, cfg, Perform(cfg, w, t, Do(a)))
  {
    StepAccounted(cfg, w.acc, t, a);
    StepDistinct(cfg, w.acc, t, a);
    DoJobsOk(cfg, w, t, a);
    DoLogFaithful(exact, cfg, w, t, a);
    if exact {
      DoNoneEvicting(cfg, w.acc, t, a);
    }
  }

  // Calling, returning, and beginning or ending a sweep.
  lemma QuietFaithful(exact: bool, cfg: Config, w: World, t: nat, d: Deed)
    requires Faithful(exact, cfg, w) && Can(cfg, w, t, d) && !d.Do?
    ensures Faithful(exact, cfg, Perform(cfg, w, t, d))
  {
    var w' := Perform(cfg, w, t, d);
    forall u | 0 <= u < |w'.jobs| ensures JobOk(cfg, w'.acc, w'.clocks, w'.jobs[u], w'.acc.threads[u]) {
      assert JobOk(cfg, w.acc, w.clocks, w.jobs[u], w.acc.threads[u]);
    }
  }

  lemma StepFaithful(exact: bool, cfg: Config, w: World, t: nat, d: Deed)
    requires Faithful(exact, cfg, w) && Can(cfg, w, t, d)
    requires exact ==> Unlimited(cfg) && PromptStep(cfg, w, t, d)
    ensures Faithful(exact, cfg, Perform(cfg, w, t, d))
  {
    if d.Do? {
      DoFaithful(exact, cfg, w, t, d.action);
    } else {
      QuietFaithful(exact, cfg, w, t, d);
    }
  }

  lemma BeginningFaithful(exact: bool, cfg: Config, w: World)
    requires Beginning(cfg, w)
    ensures Faithful(exact, cfg, w)
  {
    InitialInv(cfg, w.acc);
  }

  ghost predicate AllPrompt(cfg: Config, worlds: seq<World>, steps: seq<Stride>)
    requires |worlds| == |steps| + 1
  {
    forall i :: 0 <= i < |steps| ==> PromptStep(cfg, worlds[i], steps[i].thread, steps[i].deed)
  }

  lemma {:induction false} HistoryFaithful(exact: bool, cfg: Config, worlds: seq<World>, steps: seq<Stride>, i: nat)
    requires History(cfg, worlds, steps) && i < |worlds|
    requires exact ==> Unlimited(cfg) && AllPrompt(cfg, worlds, steps)
    ensures Faithful(exact, cfg, worlds[i])
  {
    if i == 0 {
      BeginningFaithful(exact, cfg, worlds[0]);
    } else {
      HistoryFaithful(exact, cfg, worlds, steps, i - 1);
      StepFaithful(exact, cfg, worlds[i - 1], steps[i - 1].thread, steps[i - 1].deed);
    }
  }

  // In every interleaving, whatever the clock readings, every answer given so far is that of the plain
  // map fed the calls in the order of the log, or a miss.
  lemma InterleavedNeverStale(cfg: Config, worlds: seq<World>, steps: seq<Stride>, i: nat)
    requires History(cfg, worlds, steps) && i < |worlds|
    ensures AnswersOk(false, worlds[i].log)
  {
    HistoryFaithful(false, cfg, worlds, steps, i);
  }

  // With unlimited capacity it is exactly the map's, unless a call other than a set reads the clock
  // before a deadline of its own key that the shard has already seen pass. Sweeps may come at any time
  // and with any reading.
  lemma InterleavedIsPlainMap(cfg: Config, worlds: seq<World>, steps: seq<Stride>, i: nat)
    requires History(cfg, worlds, steps) && i < |worlds| && Unlimited(cfg) && AllPrompt(cfg, worlds, steps)
    ensures AnswersOk(true, worlds[i].log)
  {
    HistoryFaithful(true, cfg, worlds, steps, i);
  }

  // Call by call, in any interleaving of any engine: the answer is the map's exactly unless the shard
  // lacks an entry that the map still has at the call's own reading.
  lemma AnswerExactlyUnlessDropped(cfg: Config, worlds: seq<World>, steps: seq<Stride>, k: nat)
    requires History(cfg, worlds, steps) && k < |steps| && steps[k].deed.Do?
    requires worlds[k].jobs[steps[k].thread].Inside? && |worlds[k + 1].log| > |worlds[k].log|
    ensures var w, call := worlds[k], worlds[k].jobs[steps[k].thread].call;
            && |worlds[k + 1].log| == |w.log| + 1 && !call.op.Purge? && ShardOf(cfg, call.op.key) < |w.acc.shards|
            && (worlds[k + 1].log[|w.log|].answer == PlainStep(MapOf(w.log), call.op, call.now).1 <==>
                || call.op.Set?
                || Find(w.acc.shards[ShardOf(cfg, call.op.key)], call.op.key).Some?
                || Alive(MapOf(w.log), call.op.key, call.now).None?)
  {
    HistoryFaithful(false, cfg, worlds, steps, k);
    var w, call := worlds[k], worlds[k].jobs[steps[k].thread].call;
    var i := ShardOf(cfg, call.op.key);
    assert Mirror(false, Find(w.acc.shards[i], call.op.key), MapOf(w.log), call.op.key, w.clocks[i]);
    AnswerLikeMap(false, w.acc.shards[i], MapOf(w.log), call.op, call.now, w.clocks[i]);
  }

  lemma AnswerLikeMap(exact: bool, l: Recent, m: Plain, op: Op, now: nat, clock: nat)
    requires !op.Purge? && Mirror(exact, Find(l, op.key), m, op.key, clock)
    ensures OnShard(l, op, now).1 == PlainStep(m, op, now).1 <==>
            op.Set? || Find(l, op.key).Some? || Alive(m, op.key, now).None?
  {
  }

  // A call takes its lock with a reading no earlier than the latest the shard has seen.
  predicate Timely(w: World, t: nat, d: Deed) {
    d.Do? && d.action.Lock? && t < |w.jobs| && w.jobs[t].Waiting? && d.action.shard < |w.clocks| ==>
      w.clocks[d.action.shard] <= w.jobs[t].call.now
  }

  ghost predicate InOrder(worlds: seq<World>, steps: seq<Stride>)
    requires |worlds| == |steps| + 1
  {
    forall i :: 0 <= i < |steps| ==> Timely(worlds[i], steps[i].thread, steps[i].deed)
  }

  // Whoever is inside has the latest reading of its shard.
  ghost predicate InsideLatest(cfg: Config, w: World) {
    forall t :: 0 <= t < |w.jobs| && w.jobs[t].Inside? && !w.jobs[t].call.op.Purge? ==>
      var i := ShardOf(cfg, w.jobs[t].call.op.key);
      i < |w.clocks| && w.clocks[i] == w.jobs[t].call.now
  }

  lemma DoInsideLatest(cfg: Config, w: World, t: nat, a: Action)
    requires Accounted(w.acc) && JobsOk(cfg, w) && InsideLatest(cfg, w)
    requires Can(cfg, w, t, Do(a)) && Timely(w, t, Do(a))
    ensures InsideLatest(cfg, Perform(cfg, w, t, Do(a)))
  {
    var w' := Advance(cfg, w, t, a);
    forall u | 0 <= u < |w'.jobs| && w'.jobs[u].Inside? && !w'.jobs[u].call.op.Purge?
      ensures var i := ShardOf(cfg, w'.jobs[u].call.op.key);
              i < |w'.clocks| && w'.clocks[i] == w'.jobs[u].call.now
    {
      if u != t {
        assert w.jobs[u] == w'.jobs[u] && JobOk(cfg, w.acc, w.clocks, w.jobs[u], w.acc.threads[u]);
        var i := ShardOf(cfg, w.jobs[u].call.op.key);
        LockShelters(cfg, w.acc, t, a, u, i);
        ClockShelters(cfg, w, t, a, i);
      }
    }
  }

  lemma QuietInsideLatest(cfg: Config, w: World, t: nat, d: Deed)
    requires InsideLatest(cfg, w) && Can(cfg, w, t, d) && !d.Do?
    ensures InsideLatest(cfg, Perform(cfg, w, t, d))
  {
  }

  lemma StepInsideLatest(cfg: Config, w: World, t: nat, d: Deed)
    requires Accounted(w.acc) && JobsOk(cfg, w) && InsideLatest(cfg, w) && Can(cfg, w, t, d) && Timely(w, t, d)
    ensures InsideLatest(cfg, Perform(cfg, w, t, d))
  {
    if d.Do? {
      DoInsideLatest(cfg, w, t, d.action);
    } else {
      QuietInsideLatest(cfg, w, t, d);
    }
  }

  lemma {:induction false} HistoryInsideLatest(cfg: Config, worlds: seq<World>, steps: seq<Stride>, i: nat)
    requires History(cfg, worlds, steps) && i < |worlds| && InOrder(worlds, steps)
    ensures InsideLatest(cfg, worlds[i])
  {
    if i > 0 {
      HistoryInsideLatest(cfg, worlds, steps, i - 1);
      HistoryFaithful(false, cfg, worlds, steps, i - 1);
      StepInsideLatest(cfg, worlds[i - 1], steps[i - 1].thread, steps[i - 1].deed);
    }
  }

  // In particular, it is exact if no call enters a shard with a reading older than one already seen there.
  lemma InOrderIsPlainMap(cfg: Config, worlds: seq<World>, steps: seq<Stride>, i: nat)
    requires History(cfg, worlds, steps) && i < |worlds| && Unlimited(cfg) && InOrder(worlds, steps)
    ensures AnswersOk(true, worlds[i].log)
  {
    forall k | 0 <= k < |steps| ensures PromptStep(cfg, worlds[k], steps[k].thread, steps[k].deed) {
      HistoryInsideLatest(cfg, worlds, steps, k);
    }
    InterleavedIsPlainMap(cfg, worlds, steps, i);
  }

  // ---------------------------------------------------------------------------------------
  // Each call takes effect once, between its call and its return.

  predicate Pending(job: Job) {
    job.Waiting? || job.Inside? || job.Cleared?
  }

  predicate Logs(log: seq<Logged>, id: nat) {
    exists i :: 0 <= i < |log| && log[i].call.id == id
  }

  // A pending call is not in the log; an answered one is there, no earlier than it was called.
  predicate JobLogged(w: World, t: nat, job: Job) {
    && (Pending(job) ==>
          && job.call.id < |w.callers| && w.callers[job.call.id] == t
          && job.call.from <= |w.log| && !Logs(w.log, job.call.id))
    && (job.Answered? ==> job.call.from <= job.at < |w.log| && w.log[job.at].call == job.call)
  }

  predicate Within(w: World, f: Finished) {
    f.call.from <= f.at < f.to <= |w.log| && w.log[f.at].call == f.call
  }

  // No call is logged twice, or before it was made.
  ghost predicate LogOnce(w: World) {
    && (forall i :: 0 <= i < |w.log| ==> w.log[i].call.id < |w.callers| && w.log[i].call.from <= i)
    && forall i, j :: 0 <= i < j < |w.log| ==> w.log[i].call.id != w.log[j].call.id
  }

  ghost predicate Orderly(w: World) {
    && LogOnce(w)
    && (forall t :: 0 <= t < |w.jobs| ==> JobLogged(w, t, w.jobs[t]))
    && forall i :: 0 <= i < |w.finished| ==> Within(w, w.finished[i])
  }

  // The log either stays or gains the pending call of the thread that acts.
  predicate Gains(w: World, w': World, t: nat) {
    && t < |w.jobs| && Pending(w.jobs[t])
    && |w'.log| == |w.log| + 1 && w'.log[..|w.log|] == w.log && w'.log[|w.log|].call == w.jobs[t].call
    && w'.jobs == w.jobs[t := Answered(w.jobs[t].call, |w.log|)]
    && w'.callers == w.callers && w'.finished == w.finished
  }

  lemma GainOrderly(w: World, w': World, t: nat)
    requires Orderly(w) && Gains(w, w', t)
    ensures Orderly(w')
  {
    var call, n := w.jobs[t].call, |w.log|;
    assert JobLogged(w, t, w.jobs[t]);
    assert forall i :: 0 <= i < n ==> w'.log[i] == w.log[i];
    forall u | 0 <= u < |w'.jobs| ensures JobLogged(w', u, w'.jobs[u]) {
      assert JobLogged(w, u, w.jobs[u]);
    }
    forall i | 0 <= i < |w'.finished| ensures Within(w', w'.finished[i]) {
      assert Within(w, w.finished[i]);
    }
  }

  lemma GainsByLog(w: World, w': World, t: nat, call: Call, answer: Answer)
    requires t < |w.jobs| && Pending(w.jobs[t]) && w.jobs[t].call == call
    requires w' == Log(w, t, call, answer).(acc := w'.acc)
    ensures Gains(w, w', t)
  {
  }

  // The log stays and the thread keeps its call.
  lemma StayOrderly(w: World, w': World, t: nat)
    requires Orderly(w) && t < |w.jobs| == |w'.jobs|
    requires w'.log == w.log && w'.callers == w.callers && w'.finished == w.finished
    requires w'.jobs == w.jobs[t := w'.jobs[t]]
    requires w'.jobs[t] == w.jobs[t] || (Pending(w.jobs[t]) && Pending(w'.jobs[t]) && w'.jobs[t].call == w.jobs[t].call)
             || w'.jobs[t].Resting? || w'.jobs[t].Sweeping?
    ensures Orderly(w')
  {
    forall u | 0 <= u < |w'.jobs| ensures JobLogged(w', u, w'.jobs[u]) {
      assert JobLogged(w, u, w.jobs[u]);
    }
    forall i | 0 <= i < |w'.finished| ensures Within(w', w'.finished[i]) {
      assert Within(w, w.finished[i]);
    }
  }

  lemma DoOrderly(cfg: Config, w: World, t: nat, a: Action)
    requires Orderly(w) && Can(cfg, w, t, Do(a))
    ensures Orderly(Perform(cfg, w, t, Do(a)))
  {
    var w' := Perform(cfg, w, t, Do(a));
    var job := w.jobs[t];
    if job.Inside? && !(job.call.op.Set? && a.Remove?) {
      GainsByLog(w, w', t, job.call, OnShard(w.acc.shards[ShardOf(cfg, job.call.op.key)], job.call.op, job.call.now).1);
      GainOrderly(w, w', t);
    } else if job.Cleared? && a.Insert? {
      GainsByLog(w, w', t, job.call, Done);
      GainOrderly(w, w', t);
    } else {
      StayOrderly(w, w', t);
    }
  }

  lemma InvokeOrderly(cfg: Config, w: World, t: nat, d: Deed)
    requires Orderly(w) && Can(cfg, w, t, d) && d.Invoke?
    ensures Orderly(Perform(cfg, w, t, d))
  {
    var w' := Perform(cfg, w, t, d);
    forall u | 0 <= u < |w'.jobs| ensures JobLogged(w', u, w'.jobs[u]) {
      assert JobLogged(w, u, w.jobs[u]);
    }
    forall i | 0 <= i < |w'.finished| ensures Within(w', w'.finished[i]) {
      assert Within(w, w.finished[i]);
    }
  }

  lemma ReturnOrderly(cfg: Config, w: World, t: nat)
    requires Orderly(w) && Can(cfg, w, t, Return)
    ensures Orderly(Perform(cfg, w, t, Return))
  {
    var w' := Perform(cfg, w, t, Return);
    assert JobLogged(w, t, w.jobs[t]);
    forall u | 0 <= u < |w'.jobs| ensures JobLogged(w', u, w'.jobs[u]) {
      assert JobLogged(w, u, w.jobs[u]);
    }
    forall i | 0 <= i < |w'.finished| ensures Within(w', w'.finished[i]) {
      if i < |w.finished| {
        assert Within(w, w.finished[i]);
      }
    }
  }

  lemma StepOrderly(cfg: Config, w: World, t: nat, d: Deed)
    requires Orderly(w) && Can(cfg, w, t, d)
    ensures Orderly(Perform(cfg, w, t, d))
  {
    match d {
      case Do(a) => DoOrderly(cfg, w, t, a);
      case Invoke(_, _) => InvokeOrderly(cfg, w, t, d);
      case Return => ReturnOrderly(cfg, w, t);
      case _ => StayOrderly(w, Perform(cfg, w, t, d), t);
    }
  }

  lemma {:induction false} HistoryOrderly(cfg: Config, worlds: seq<World>, steps: seq<Stride>, i: nat)
    requires History(cfg, worlds, steps) && i < |worlds|
    ensures Orderly(worlds[i])
  {
    if i > 0 {
      HistoryOrderly(cfg, worlds, steps, i - 1);
      StepOrderly(cfg, worlds[i - 1], steps[i - 1].thread, steps[i - 1].deed);
    }
  }

  // The log only ever grows, by the pending call of the thread that acts.
  lemma LogKept(cfg: Config, w: World, t: nat, d: Deed)
    requires Can(cfg, w, t, d)
    ensures var log := Perform(cfg, w, t, d).log;
            || log == w.log
            || (Pending(w.jobs[t]) && |log| == |w.log| + 1 && log[..|w.log|] == w.log
                && log[|w.log|].call == w.jobs[t].call)
  {
  }

  // Every call that has returned took effect exactly once, after it was made and before it returned.
  lemma CallsTakeEffectOnce(cfg: Config, worlds: seq<World>, steps: seq<Stride>, i: nat, k: nat)
    requires History(cfg, worlds, steps) && i < |worlds| && k < |worlds[i].finished|
    ensures var w, f := worlds[i], worlds[i].finished[k];
            && f.call.from <= f.at < f.to <= |w.log| && w.log[f.at].call == f.call
            && forall j :: 0 <= j < |w.log| && w.log[j].call.id == f.call.id ==> j == f.at
  {
    HistoryOrderly(cfg, worlds, steps, i);
    assert Within(worlds[i], worlds[i].finished[k]);
  }

  // `call` was made by an earlier step of the history.
  ghost predicate Made(worlds: seq<World>, steps: seq<Stride>, i: nat, call: Call) {
    exists j :: 0 <= j < i && j < |steps| && MadeAt(worlds, steps, j, call)
  }

  ghost predicate MadeAt(worlds: seq<World>, steps: seq<Stride>, j: nat, call: Call)
    requires j < |steps|
  {
    && steps[j].deed == Invoke(call.op, call.now) && j < |worlds|
    && call.id == |worlds[j].callers| && call.from == |worlds[j].log|
  }

  ghost predicate AllMade(worlds: seq<World>, steps: seq<Stride>, i: nat, w: World) {
    && (forall p :: 0 <= p < |w.log| ==> Made(worlds, steps, i, w.log[p].call))
    && forall t :: 0 <= t < |w.jobs| && (Pending(w.jobs[t]) || w.jobs[t].Answered?) ==>
         Made(worlds, steps, i, w.jobs[t].call)
  }

  // A step makes one call at most, and passes on the others.
  lemma CallsPassedOn(cfg: Config, w: World, t: nat, d: Deed, u: nat)
    requires Can(cfg, w, t, d) && u < |w.jobs|
    ensures var job' := Perform(cfg, w, t, d).jobs[u];
            Pending(job') || job'.Answered? ==>
              || (u == t && d.Invoke? && job'.call == Call(|w.callers|, d.op, d.now, |w.log|))
              || ((Pending(w.jobs[u]) || w.jobs[u].Answered?) && job'.call == w.jobs[u].call)
  {
  }

  lemma {:induction false} CallsWereMade(cfg: Config, worlds: seq<World>, steps: seq<Stride>, i: nat)
    requires History(cfg, worlds, steps) && i < |worlds|
    ensures AllMade(worlds, steps, i, worlds[i])
  {
    if i > 0 {
      CallsWereMade(cfg, worlds, steps, i - 1);
      var w, w', t, d := worlds[i - 1], worlds[i], steps[i - 1].thread, steps[i - 1].deed;
      LogKept(cfg, w, t, d);
      forall p | 0 <= p < |w'.log| ensures Made(worlds, steps, i, w'.log[p].call) {
        var call := w'.log[p].call;
        assert p < |w.log| ==> w'.log[..|w.log|][p] == w.log[p];
        assert Made(worlds, steps, i - 1, call);
      }
      forall u | 0 <= u < |w'.jobs| && (Pending(w'.jobs[u]) || w'.jobs[u].Answered?)
        ensures Made(worlds, steps, i, w'.jobs[u].call)
      {
        CallsPassedOn(cfg, w, t, d, u);
        if Made(worlds, steps, i - 1, w'.jobs[u].call) {
        } else {
          assert MadeAt(worlds, steps, i - 1, w'.jobs[u].call);
        }
      }
    }
  }

  // What takes effect was asked for: every call in the log was made by an earlier step, with that
  // operation and that reading.
  lemma LoggedCallsWereMade(cfg: Config, worlds: seq<World>, steps: seq<Stride>, i: nat, p: nat) returns (j: nat)
    requires History(cfg, worlds, steps) && i < |worlds| && p < |worlds[i].log|
    ensures var call := worlds[i].log[p].call;
            && j < i && j < |steps| && steps[j].deed == Invoke(call.op, call.now)
            && call.id == |worlds[j].callers| && call.from == |worlds[j].log| <= p
  {
    CallsWereMade(cfg, worlds, steps, i);
    HistoryOrderly(cfg, worlds, steps, i);
    var call := worlds[i].log[p].call;
    assert Made(worlds, steps, i, call);
    j :| 0 <= j < i && j < |steps| && MadeAt(worlds, steps, j, call);
  }

  lemma {:induction false} LogGrows(cfg: Config, worlds: seq<World>, steps: seq<Stride>, i: nat, j: nat)
    requires History(cfg, worlds, steps) && i <= j < |worlds|
    ensures |worlds[i].log| <= |worlds[j].log|
    decreases j - i
  {
    if i < j {
      LogGrows(cfg, worlds, steps, i, j - 1);
      assert worlds[j] == Perform(cfg, worlds[j - 1], steps[j - 1].thread, steps[j - 1].deed);
    }
  }

  // A call made after another has returned takes effect after it.
  lemma RealTimeOrder(cfg: Config, worlds: seq<World>, steps: seq<Stride>, i: nat, k: nat, j: nat, n: nat, at: nat)
    requires History(cfg, worlds, steps) && i <= j < |steps| && k < |worlds[i].finished| && steps[j].deed.Invoke?
    requires n < |worlds| && at < |worlds[n].log|
    requires worlds[n].log[at].call == worlds[j + 1].jobs[steps[j].thread].call
    ensures worlds[i].finished[k].at < at
  {
    HistoryOrderly(cfg, worlds, steps, i);
    assert Within(worlds[i], worlds[i].finished[k]);
    LogGrows(cfg, worlds, steps, i, j);
    HistoryOrderly(cfg, worlds, steps, n);
  }
}
