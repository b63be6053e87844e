/**
 The request counters (hkv-server/src/metrics.rs) as the connection loop drives them
 (hkv-server/src/server.rs): any number of connections, any errors, writes that fail midway. A step is
 one update of one counter.
 */
module RequestCounters {
  import opened Base

  datatype Phase =
    | Ready
    | Starting                  // requests_total counted, inflight not yet
    | Running(erred: bool)      // between start and end; `erred` once the error is recorded
    | Ending                    // inflight uncounted, sample not yet recorded
    | Failed                    // the write failed: the request stays counted in flight
    | Closed

  datatype State = State(requests: nat, errors: nat, inflight: int, samples: nat, conns: seq<Phase>)

  datatype Action = Begin | Enter | RecordError | WriteFails | Leave | Sample(close: bool) | Close

  predicate Enabled(s: State, t: nat, a: Action) {
    && t < |s.conns|
    && var p := s.conns[t];
       match a
       case Begin => p.Ready?
       case Enter => p.Starting?
       case RecordError => p == Running(false)
       case WriteFails => p.Running?
       case Leave => p.Running?
       case Sample(_) => p.Ending?
       case Close => p.Ready?
  }

  function Move(s: State, t: nat, p: Phase): State
    requires t < |s.conns|
  {
    s.(conns := s.conns[t := p])
  }

  function Apply(s: State, t: nat, a: Action): State
    requires Enabled(s, t, a)
  {
    match a
    case Begin => Move(s, t, Starting).(requests := s.requests + 1)
    case Enter => Move(s, t, Running(false)).(inflight := s.inflight + 1)
    case RecordError => Move(s, t, Running(true)).(errors := s.errors + 1)
    case WriteFails => Move(s, t, Failed)
    case Leave => Move(s, t, Ending).(inflight := s.inflight - 1)
    case Sample(close) => Move(s, t, if close then Closed else Ready).(samples := s.samples + 1)
    case Close => Move(s, t, Closed)
  }

  // Requests counted in flight, part-way through an update, and free to record an error.
  function InFlight(p: Phase): nat {
    if p.Running? || p.Failed? then 1 else 0
  }

  function PartWay(p: Phase): nat {
    if p.Starting? || p.Ending? then 1 else 0
  }

  function MayErr(p: Phase): nat {
    if p.Starting? || p == Running(false) then 1 else 0
  }

  predicate Inv(s: State) {
    && s.inflight == SumBy(InFlight, s.conns)
    && s.requests == s.inflight + s.samples + SumBy(PartWay, s.conns)
    && s.errors + SumBy(MayErr, s.conns) <= s.requests
  }

  // Every update of every connection keeps the books, and `inflight` is positive when it is lowered.
  lemma StepInv(s: State, t: nat, a: Action)
    requires Inv(s) && Enabled(s, t, a)
    ensures Inv(Apply(s, t, a))
    ensures a.Leave? ==> s.inflight >= 1
  {
    var p := Apply(s, t, a).conns[t];
    SumByUpdate(InFlight, s.conns, t, p);
    SumByUpdate(PartWay, s.conns, t, p);
    SumByUpdate(MayErr, s.conns, t, p);
    SumByAtLeast(InFlight, s.conns, t);
    SumByAtLeast(MayErr, s.conns, t);
  }

  datatype Turn = Turn(conn: nat, action: Action)

  ghost predicate Run(states: seq<State>, turns: seq<Turn>) {
    && |states| == |turns| + 1
    && states[0].requests == states[0].errors == states[0].samples == 0 && states[0].inflight == 0
    && (forall t :: 0 <= t < |states[0].conns| ==> states[0].conns[t] == Ready)
    && forall i :: 0 <= i < |turns| ==>
         && Enabled(states[i], turns[i].conn, turns[i].action)
         && states[i + 1] == Apply(states[i], turns[i].conn, turns[i].action)
  }

  lemma {:induction false} RunInv(states: seq<State>, turns: seq<Turn>, i: nat)
    requires Run(states, turns) && i < |states|
    ensures Inv(states[i])
  {
    if i == 0 {
      SumByZero(InFlight, states[0].conns);
      SumByZero(PartWay, states[0].conns);
      SumByZero(MayErr, states[0].conns);
    } else {
      RunInv(states, turns, i - 1);
      StepInv(states[i - 1], turns[i - 1].conn, turns[i - 1].action);
    }
  }

  // In every state of every run errors never outnumber requests and inflight is not negative; whenever
  // no update is part-way, every request is either in flight or has been sampled.
  lemma CountersConsistent(states: seq<State>, turns: seq<Turn>, i: nat)
    requires Run(states, turns) && i < |states|
    ensures states[i].errors <= states[i].requests && states[i].inflight >= 0
    ensures (forall t :: 0 <= t < |states[i].conns| ==> !states[i].conns[t].Starting? && !states[i].conns[t].Ending?)
            ==> states[i].requests == states[i].inflight + states[i].samples
  {
    RunInv(states, turns, i);
    if forall t :: 0 <= t < |states[i].conns| ==> !states[i].conns[t].Starting? && !states[i].conns[t].Ending? {
      SumByZero(PartWay, states[i].conns);
    }
  }

  // How often an update was made in the first turns of a run.
  function Times(turns: seq<Turn>, i: nat, made: Action -> bool): nat
    requires i <= |turns|
  {
    if i == 0 then 0 else Times(turns, i - 1, made) + (if made(turns[i - 1].action) then 1 else 0)
  }

  // Each counter is the number of its updates so far: errors recorded, requests begun, requests sampled,
  // and requests entered less those left.
  lemma {:induction false} CountersCountUpdates(states: seq<State>, turns: seq<Turn>, i: nat)
    requires Run(states, turns) && i < |states|
    ensures states[i].errors == Times(turns, i, (a: Action) => a.RecordError?)
    ensures states[i].requests == Times(turns, i, (a: Action) => a.Begin?)
    ensures states[i].samples == Times(turns, i, (a: Action) => a.Sample?)
    ensures states[i].inflight == Times(turns, i, (a: Action) => a.Enter?) - Times(turns, i, (a: Action) => a.Leave?)
  {
    if i > 0 {
      CountersCountUpdates(states, turns, i - 1);
    }
  }
}
