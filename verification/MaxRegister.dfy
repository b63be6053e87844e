/**
 `update_max` of hkv-server/src/metrics.rs: a maximum kept by a compare-and-swap loop, called by any
 number of threads at once. A step is one load or one exchange.
 */
module MaxRegister {

  datatype Phase =
    | Idle
    | Trying(value: nat, current: nat)    // in the loop, having last seen `current`
    | Returned(value: nat)

  datatype State = State(max: nat, offered: set<nat>, threads: seq<Phase>)

  datatype Action =
    | Load(value: nat)    // a call begins by reading the register
    | Turn                // the loop condition and, if it holds, one exchange

  predicate Enabled(s: State, t: nat, a: Action) {
    t < |s.threads| && match a
                       case Load(_) => !s.threads[t].Trying?
                       case Turn => s.threads[t].Trying?
  }

  function Apply(s: State, t: nat, a: Action): State
    requires Enabled(s, t, a)
  {
    match a
    case Load(v) => State(s.max, s.offered + {v}, s.threads[t := Trying(v, s.max)])
    case Turn =>
      var p := s.threads[t];
      if p.value <= p.current then s.(threads := s.threads[t := Returned(p.value)])
      else if s.max == p.current then State(p.value, s.offered, s.threads[t := Returned(p.value)])
      else s.(threads := s.threads[t := Trying(p.value, s.max)])
  }

  ghost predicate Inv(s: State) {
    && (s.max == 0 || s.max in s.offered)
    && forall t :: 0 <= t < |s.threads| ==>
         match s.threads[t]
         case Idle => true
         case Trying(v, current) => v in s.offered && current <= s.max
         case Returned(v) => v <= s.max
  }

  // Turns a call may still take.
  function Budget(p: Phase): nat {
    if p.Trying? then 1 + (if p.value > p.current then p.value - p.current else 0) else 0
  }

  // One step keeps the invariant, never lowers the register, and leaves other calls alone; a turn
  // uses up budget, because a failed exchange has seen a larger value than before.
  lemma StepSafe(s: State, t: nat, a: Action)
    requires Inv(s) && Enabled(s, t, a)
    ensures Inv(Apply(s, t, a)) && s.max <= Apply(s, t, a).max
    ensures a.Turn? ==> Budget(Apply(s, t, a).threads[t]) < Budget(s.threads[t])
    ensures forall u :: 0 <= u < |s.threads| && u != t ==> Apply(s, t, a).threads[u] == s.threads[u]
  {
    var s' := Apply(s, t, a);
    forall u | 0 <= u < |s'.threads|
      ensures match s'.threads[u]
              case Idle => true
              case Trying(v, current) => v in s'.offered && current <= s'.max
              case Returned(v) => v <= s'.max
    {
      if u != t {
        assert s'.threads[u] == s.threads[u];
      }
    }
  }

  datatype Move = Move(thread: nat, action: Action)

  ghost predicate Run(states: seq<State>, moves: seq<Move>) {
    && |states| == |moves| + 1
    && states[0].max == 0 && states[0].offered == {}
    && (forall t :: 0 <= t < |states[0].threads| ==> states[0].threads[t] == Idle)
    && forall i :: 0 <= i < |moves| ==>
         && Enabled(states[i], moves[i].thread, moves[i].action)
         && states[i + 1] == Apply(states[i], moves[i].thread, moves[i].action)
  }

  lemma {:induction false} RunInv(states: seq<State>, moves: seq<Move>, i: nat)
    requires Run(states, moves) && i < |states|
    ensures Inv(states[i])
  {
    if i > 0 {
      RunInv(states, moves, i - 1);
      StepSafe(states[i - 1], moves[i - 1].thread, moves[i - 1].action);
    }
  }

  // In every run the register never goes down.
  lemma {:induction false} RunMonotone(states: seq<State>, moves: seq<Move>, i: nat, j: nat)
    requires Run(states, moves) && i <= j < |states|
    ensures states[i].max <= states[j].max
    decreases j - i
  {
    if i < j {
      RunMonotone(states, moves, i, j - 1);
      RunInv(states, moves, j - 1);
      StepSafe(states[j - 1], moves[j - 1].thread, moves[j - 1].action);
    }
  }

  // The values offered are those that calls began with.
  lemma {:induction false} OfferedWereLoaded(states: seq<State>, moves: seq<Move>, j: nat, v: nat)
    requires Run(states, moves) && j < |states|
    ensures v in states[j].offered <==> exists i :: 0 <= i < j && moves[i].action == Load(v)
  {
    if j > 0 {
      OfferedWereLoaded(states, moves, j - 1, v);
      assert moves[j - 1].action == moves[j - 1].action;
    }
  }

  // It is always zero or the value of a call that has begun, and from the moment a call with `v` has
  // returned it is at least `v` for good.
  lemma RegisterIsMaximum(states: seq<State>, moves: seq<Move>, j: nat)
    requires Run(states, moves) && j < |states|
    ensures states[j].max == 0 || exists i :: 0 <= i < j && moves[i].action == Load(states[j].max)
    ensures forall i, t :: 0 <= i <= j && 0 <= t < |states[i].threads| && states[i].threads[t].Returned? ==>
              states[j].max >= states[i].threads[t].value
  {
    RunInv(states, moves, j);
    OfferedWereLoaded(states, moves, j, states[j].max);
    forall i, t | 0 <= i <= j && 0 <= t < |states[i].threads| && states[i].threads[t].Returned?
      ensures states[j].max >= states[i].threads[t].value
    {
      RunInv(states, moves, i);
      RunMonotone(states, moves, i, j);
    }
  }

  // The exchanges a thread makes between two states of a run.
  function TurnsOf(moves: seq<Move>, t: nat): nat {
    if moves == [] then 0
    else TurnsOf(moves[..|moves| - 1], t) + (if moves[|moves| - 1] == Move(t, Turn) then 1 else 0)
  }

  // Every call terminates: however the threads interleave, one that began with value v takes at most
  // v + 1 turns of the loop before it returns.
  lemma {:induction false} CallTakesBoundedTurns(states: seq<State>, moves: seq<Move>, i: nat, j: nat, t: nat)
    requires Run(states, moves) && i <= j < |states| && t < |states[i].threads|
    requires forall k :: i <= k < j ==> t < |states[k].threads| && states[k].threads[t].Trying?
    ensures t < |states[j].threads|
    ensures TurnsOf(moves[i..j], t) + Budget(states[j].threads[t]) <= Budget(states[i].threads[t])
    ensures states[i].threads[t].Trying? ==> Budget(states[i].threads[t]) <= states[i].threads[t].value + 1
    decreases j - i
  {
    if i < j {
      CallTakesBoundedTurns(states, moves, i, j - 1, t);
      RunInv(states, moves, j - 1);
      var move := moves[j - 1];
      StepSafe(states[j - 1], move.thread, move.action);
      assert moves[i..j][..j - i - 1] == moves[i..j - 1];
    } else {
      assert moves[i..j] == [];
    }
  }
}
