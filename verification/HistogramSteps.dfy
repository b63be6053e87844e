/**
 The latency histogram of hkv-server/src/metrics.rs under interleaving. A call of `record` is a sequence
 of separate atomic updates: the sample count, the sum, the compare-and-swap loop of the maximum, and one
 bucket. Any number of threads make them at once; whenever no call is part-way the counters depict
 exactly the samples recorded.
 */
module HistogramSteps {
  import opened Base
  import opened Metrics

  datatype Phase =
    | Idle
    | Counted(v: nat)                  // in the sample count
    | Summed(v: nat)                   // in the sum as well
    | Trying(v: nat, current: nat)     // in the loop of the maximum, having last seen `current`
    | Maxed(v: nat)                    // all but its bucket

  // `begun` lists the samples in the order in which their calls began.
  datatype State = State(snap: LatencySnapshot, threads: seq<Phase>, begun: seq<nat>)

  datatype Action = Begin(v: nat) | Sum | LoadMax | Exchange | Fill

  predicate Enabled(s: State, t: nat, a: Action) {
    && t < |s.threads| && |s.snap.buckets| == |s.snap.bounds| + 1
    && match a
       case Begin(_) => s.threads[t].Idle?
       case Sum => s.threads[t].Counted?
       case LoadMax => s.threads[t].Summed?
       case Exchange => s.threads[t].Trying?
       case Fill => s.threads[t].Maxed?
  }

  function Move(s: State, t: nat, p: Phase, snap: LatencySnapshot): State
    requires t < |s.threads|
  {
    s.(threads := s.threads[t := p], snap := snap)
  }

  function Apply(s: State, t: nat, a: Action): State
    requires Enabled(s, t, a)
  {
    var p, snap := s.threads[t], s.snap;
    match a
    case Begin(v) => Move(s, t, Counted(v), snap.(samples := snap.samples + 1)).(begun := s.begun + [v])
    case Sum => Move(s, t, Summed(p.v), snap.(sumUs := (snap.sumUs + p.v) % WORD))
    case LoadMax => Move(s, t, Trying(p.v, snap.maxUs), snap)
    case Exchange =>
      if p.v <= p.current then Move(s, t, Maxed(p.v), snap)
      else if snap.maxUs == p.current then Move(s, t, Maxed(p.v), snap.(maxUs := p.v))
      else Move(s, t, Trying(p.v, snap.maxUs), snap)
    case Fill =>
      var b := BucketFrom(snap.bounds, p.v, 0);
      Move(s, t, Idle, snap.(buckets := snap.buckets[b := snap.buckets[b] + 1]))
  }

  // ---------------------------------------------------------------------------------------
  // What is still owed to each counter.

  function OwedSum(p: Phase): nat {
    if p.Counted? then p.v else 0
  }

  function OwedIn(bounds: seq<nat>, b: nat): Phase -> nat {
    (p: Phase) => if !p.Idle? && BucketFrom(bounds, p.v, 0) == b then 1 else 0
  }

  predicate OwesMax(p: Phase, v: nat) {
    (p.Counted? || p.Summed? || p.Trying?) && p.v == v
  }

  predicate SumOk(s: State) {
    s.snap.sumUs < WORD && (s.snap.sumUs + SumBy(OwedSum, s.threads)) % WORD == SumOf(s.begun) % WORD
  }

  predicate BucketOk(s: State, b: nat)
    requires b < |s.snap.buckets|
  {
    s.snap.buckets[b] + SumBy(OwedIn(s.snap.bounds, b), s.threads) == CountIn(s.begun, s.snap.bounds, b)
  }

  ghost predicate BucketsOk(s: State) {
    && |s.snap.buckets| == |s.snap.bounds| + 1
    && forall b :: 0 <= b < |s.snap.buckets| ==> BucketOk(s, b)
  }

  // A sample is under the maximum, or its call has still to offer it.
  predicate Offered(s: State, v: nat) {
    v <= s.snap.maxUs || exists t :: 0 <= t < |s.threads| && OwesMax(s.threads[t], v)
  }

  ghost predicate MaxOk(s: State) {
    && (s.snap.maxUs == 0 || s.snap.maxUs in s.begun)
    && (forall v :: v in s.begun ==> Offered(s, v))
    && forall t :: 0 <= t < |s.threads| && !s.threads[t].Idle? ==>
         s.threads[t].v in s.begun && (s.threads[t].Trying? ==> s.threads[t].current <= s.snap.maxUs)
  }

  ghost predicate Inv(s: State) {
    s.snap.samples == |s.begun| && SumOk(s) && BucketsOk(s) && MaxOk(s)
  }

  // ---------------------------------------------------------------------------------------
  // Every step keeps them.

  lemma SameModulo(a: nat, b: nat, v: nat)
    requires a % WORD == b % WORD
    ensures (a + v) % WORD == (b + v) % WORD
  {
    SumWraps(a, v);
    SumWraps(b, v);
  }

  lemma StepSumOk(s: State, t: nat, a: Action)
    requires SumOk(s) && Enabled(s, t, a)
    ensures SumOk(Apply(s, t, a))
  {
    var s', owed := Apply(s, t, a), SumBy(OwedSum, s.threads);
    SumByUpdate(OwedSum, s.threads, t, s'.threads[t]);
    match a
    case Begin(v) =>
      assert (s.begun + [v])[..|s.begun|] == s.begun;
      SameModulo(s.snap.sumUs + owed, SumOf(s.begun), v);
    case Sum =>
      SumByAtLeast(OwedSum, s.threads, t);
      SumWraps(s.snap.sumUs + s.threads[t].v, owed - s.threads[t].v);
    case _ =>
  }

  // Nothing is filled and the thread owes its bucket as before.
  lemma KeptBucketOk(s: State, s': State, t: nat, b: nat)
    requires b < |s.snap.buckets| && BucketOk(s, b) && t < |s.threads|
    requires s'.snap.bounds == s.snap.bounds && s'.snap.buckets == s.snap.buckets && s'.begun == s.begun
    requires exists p :: s'.threads == s.threads[t := p] && !p.Idle? && !s.threads[t].Idle? && p.v == s.threads[t].v
    ensures BucketOk(s', b)
  {
    var p :| s'.threads == s.threads[t := p] && !p.Idle? && !s.threads[t].Idle? && p.v == s.threads[t].v;
    SumByUpdate(OwedIn(s.snap.bounds, b), s.threads, t, p);
  }

  lemma BeginBucketOk(s: State, t: nat, v: nat, b: nat)
    requires Enabled(s, t, Begin(v)) && b < |s.snap.buckets| && BucketOk(s, b)
    ensures BucketOk(Apply(s, t, Begin(v)), b)
  {
    SumByUpdate(OwedIn(s.snap.bounds, b), s.threads, t, Counted(v));
    assert (s.begun + [v])[..|s.begun|] == s.begun;
  }

  lemma FillBucketOk(s: State, t: nat, b: nat)
    requires Enabled(s, t, Fill) && b < |s.snap.buckets| && BucketOk(s, b)
    ensures b < |Apply(s, t, Fill).snap.buckets| && BucketOk(Apply(s, t, Fill), b)
  {
    SumByUpdate(OwedIn(s.snap.bounds, b), s.threads, t, Idle);
  }

  lemma StepBucketOk(s: State, t: nat, a: Action, b: nat)
    requires Enabled(s, t, a) && b < |s.snap.buckets| && BucketOk(s, b)
    ensures b < |Apply(s, t, a).snap.buckets| && BucketOk(Apply(s, t, a), b)
  {
    match a
    case Begin(v) => BeginBucketOk(s, t, v, b);
    case Fill => FillBucketOk(s, t, b);
    case _ =>
      var s' := Apply(s, t, a);
      assert s'.threads == s.threads[t := s'.threads[t]];
      KeptBucketOk(s, s', t, b);
  }

  lemma StepBucketsOk(s: State, t: nat, a: Action)
    requires BucketsOk(s) && Enabled(s, t, a)
    ensures BucketsOk(Apply(s, t, a))
  {
    forall b | 0 <= b < |s.snap.buckets| ensures BucketOk(Apply(s, t, a), b) {
      StepBucketOk(s, t, a, b);
    }
  }

  // A sample stays offered: the maximum does not go down, and the thread that owes it still does or has
  // just put the maximum above it.
  lemma StepOffered(s: State, t: nat, a: Action, v: nat)
    requires MaxOk(s) && Enabled(s, t, a) && Offered(s, v)
    ensures Offered(Apply(s, t, a), v)
  {
    var s' := Apply(s, t, a);
    if v > s.snap.maxUs {
      var u :| 0 <= u < |s.threads| && OwesMax(s.threads[u], v);
      if u != t {
        assert OwesMax(s'.threads[u], v);
      } else if s'.threads[t].Maxed? {
        assert v <= s'.snap.maxUs;
      } else {
        assert OwesMax(s'.threads[t], v);
      }
    }
  }

  lemma StepMaxOk(s: State, t: nat, a: Action)
    requires MaxOk(s) && Enabled(s, t, a)
    ensures MaxOk(Apply(s, t, a))
  {
    var s' := Apply(s, t, a);
    forall v | v in s'.begun ensures Offered(s', v) {
      if v in s.begun {
        StepOffered(s, t, a, v);
      } else {
        assert OwesMax(s'.threads[t], v);
      }
    }
    forall u | 0 <= u < |s'.threads| && !s'.threads[u].Idle?
      ensures s'.threads[u].v in s'.begun && (s'.threads[u].Trying? ==> s'.threads[u].current <= s'.snap.maxUs)
    {
      if u != t {
        assert s'.threads[u] == s.threads[u];
      }
    }
  }

  lemma StepInv(s: State, t: nat, a: Action)
    requires Inv(s) && Enabled(s, t, a)
    ensures Inv(Apply(s, t, a))
  {
    StepSumOk(s, t, a);
    StepBucketsOk(s, t, a);
    StepMaxOk(s, t, a);
  }

  // ---------------------------------------------------------------------------------------
  // Runs.

  datatype Turn = Turn(thread: nat, action: Action)

  ghost predicate Initial(s: State) {
    && |s.snap.buckets| == |s.snap.bounds| + 1
    && (forall b :: 0 <= b < |s.snap.buckets| ==> s.snap.buckets[b] == 0)
    && s.snap.samples == 0 && s.snap.sumUs == 0 && s.snap.maxUs == 0 && s.begun == []
    && forall t :: 0 <= t < |s.threads| ==> s.threads[t] == Idle
  }

  ghost predicate Run(states: seq<State>, turns: seq<Turn>) {
    && |states| == |turns| + 1
    && Initial(states[0])
    && forall i :: 0 <= i < |turns| ==>
         && Enabled(states[i], turns[i].thread, turns[i].action)
         && states[i + 1] == Apply(states[i], turns[i].thread, turns[i].action)
  }

  lemma InitialInv(s: State)
    requires Initial(s)
    ensures Inv(s)
  {
    SumByZero(OwedSum, s.threads);
    forall b | 0 <= b < |s.snap.buckets| ensures BucketOk(s, b) {
      SumByZero(OwedIn(s.snap.bounds, b), s.threads);
    }
  }

  lemma {:induction false} RunInv(states: seq<State>, turns: seq<Turn>, i: nat)
    requires Run(states, turns) && i < |states|
    ensures Inv(states[i])
  {
    if i == 0 {
      InitialInv(states[0]);
    } else {
      RunInv(states, turns, i - 1);
      StepInv(states[i - 1], turns[i - 1].thread, turns[i - 1].action);
    }
  }

  // The samples of the calls begun by the first turns of a run, in order.
  function Offers(turns: seq<Turn>, i: nat): seq<nat>
    requires i <= |turns|
  {
    if i == 0 then []
    else Offers(turns, i - 1) + (if turns[i - 1].action.Begin? then [turns[i - 1].action.v] else [])
  }

  lemma {:induction false} BegunAreOffers(states: seq<State>, turns: seq<Turn>, i: nat)
    requires Run(states, turns) && i < |states|
    ensures states[i].begun == Offers(turns, i)
  {
    if i > 0 {
      BegunAreOffers(states, turns, i - 1);
    }
  }

  lemma MaxIsMaxOf(s: State)
    requires MaxOk(s) && forall t :: 0 <= t < |s.threads| ==> s.threads[t] == Idle
    ensures s.snap.maxUs == MaxOf(s.begun)
  {
    if s.begun != [] {
      MaxIsSample(s.begun);
      assert Offered(s, MaxOf(s.begun));
    }
    if s.snap.maxUs in s.begun {
      MaxBounds(s.begun, s.snap.maxUs);
    }
  }

  lemma RestDepicts(s: State)
    requires Inv(s) && forall t :: 0 <= t < |s.threads| ==> s.threads[t] == Idle
    ensures Depicts(s.snap, s.begun)
  {
    SumByZero(OwedSum, s.threads);
    forall b | 0 <= b < |s.snap.buckets| ensures s.snap.buckets[b] == CountIn(s.begun, s.snap.bounds, b) {
      assert BucketOk(s, b);
      SumByZero(OwedIn(s.snap.bounds, b), s.threads);
    }
    MaxIsMaxOf(s);
  }

  // After any interleaving, whenever no call is part-way, the counters depict exactly the samples of the
  // calls made, so that percentiles, average and maximum are those of the samples.
  lemma AtRestDepictsSamples(states: seq<State>, turns: seq<Turn>, i: nat)
    requires Run(states, turns) && i < |states|
    requires forall t :: 0 <= t < |states[i].threads| ==> states[i].threads[t] == Idle
    ensures Depicts(states[i].snap, Offers(turns, i))
  {
    BegunAreOffers(states, turns, i);
    RunInv(states, turns, i);
    RestDepicts(states[i]);
  }
}
