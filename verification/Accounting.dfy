/**
 The global byte counter under interleaving (hkv-engine/src/memory.rs). Any number of threads run
 get, set, delete, expire, ttl and purge; a step is one atomic access or one change made under a
 shard lock. Eviction subtracts after it has released the lock, every other path before.
 */
module Accounting {
  import opened Base
  import opened Masking
  import opened Recency
  import opened Cache

  // Where a thread is. `evicts` marks a set, which goes on to evict_if_needed after unlocking.
  datatype Phase =
    | Idle
    | Holding(shard: nat, evicts: bool)
    | Subtracting(shard: nat, size: nat, evicts: bool)
    | Adding(shard: nat, size: nat)
    | Checking
    | Claiming
    | Scanning(start: nat, offset: nat)
    | Evicted(size: nat)

  // `last` is bookkeeping for the proof: the thread of the most recent fetch_add on the counter.
  datatype State = State(shards: seq<Recent>, locks: seq<Option<nat>>, used: int, cursor: nat,
                         threads: seq<Phase>, last: nat)

  datatype Action =
    | Lock(shard: nat)
    | Remove(at: nat)                  // remove_idx under the lock, for any reason
    | Insert(entry: Entry)             // insert_new
    | Rewrite(at: nat, value: Bytes)   // set on a live key; the entry also moves to the end
    | Touch(at: nat)                   // a get that hits
    | Retime(at: nat, deadline: nat)   // expire
    | Commit                           // the fetch_sub or fetch_add that is due
    | Unlock
    | Load                             // evict_if_needed reads the counter
    | Claim                            // ... takes a start from the cursor
    | Visit                            // ... pops from the next shard, under its lock

  function Held(p: Phase): Option<nat> {
    match p
    case Holding(i, _) => Some(i)
    case Subtracting(i, _, _) => Some(i)
    case Adding(i, _) => Some(i)
    case _ => None
  }

  predicate Enabled(cfg: Config, s: State, t: nat, a: Action) {
    && t < |s.threads|
    && |s.shards| == |s.locks| == cfg.mask + 1
    && var p := s.threads[t];
       match a
       case Lock(i) => p.Idle? && i < |s.locks| && s.locks[i].None?
       case Remove(k) => p.Holding? && p.shard < |s.shards| && k < |s.shards[p.shard]|
       case Insert(e) => p.Holding? && p.shard < |s.shards| && Find(s.shards[p.shard], e.key).None?
       case Rewrite(k, _) => p.Holding? && p.shard < |s.shards| && k < |s.shards[p.shard]|
       case Touch(k) => p.Holding? && p.shard < |s.shards| && k < |s.shards[p.shard]|
       case Retime(k, _) => p.Holding? && p.shard < |s.shards| && k < |s.shards[p.shard]|
       case Commit => p.Subtracting? || p.Adding? || p.Evicted?
       case Unlock => p.Holding? && p.shard < |s.shards|
       case Load => p.Checking?
       case Claim => p.Claiming?
       case Visit => p.Scanning? && p.offset < |s.shards| && s.locks[Visited(p.start, p.offset, cfg.mask)].None?
  }

  // The list of shard `i` becomes `l` and thread `t` moves on to `p`.
  function Put(s: State, t: nat, i: nat, l: Recent, p: Phase): State
    requires t < |s.threads| && i < |s.shards|
  {
    s.(shards := s.shards[i := l], threads := s.threads[t := p])
  }

  function Move(s: State, t: nat, p: Phase): State
    requires t < |s.threads|
  {
    s.(threads := s.threads[t := p])
  }

  function Apply(cfg: Config, s: State, t: nat, a: Action): State
    requires Enabled(cfg, s, t, a)
  {
    var p := s.threads[t];
    match a
    case Lock(i) => Move(s, t, Holding(i, false)).(locks := s.locks[i := Some(t)])
    case Remove(k) =>
      var l := s.shards[p.shard];
      Put(s, t, p.shard, DropAt(l, k), Subtracting(p.shard, Size(l[k]), p.evicts))
    case Insert(e) => Put(s, t, p.shard, s.shards[p.shard] + [e], Adding(p.shard, Size(e)))
    case Rewrite(k, value) =>
      var l := s.shards[p.shard];
      var e := Entry(l[k].key, value, None);
      Put(s, t, p.shard, DropAt(l, k) + [e],
          if Size(e) > Size(l[k]) then Adding(p.shard, Size(e) - Size(l[k]))
          else if Size(e) < Size(l[k]) then Subtracting(p.shard, Size(l[k]) - Size(e), true)
          else Holding(p.shard, true))
    case Touch(k) =>
      var l := s.shards[p.shard];
      Put(s, t, p.shard, DropAt(l, k) + [l[k]], p)
    case Retime(k, deadline) =>
      var l := s.shards[p.shard];
      Put(s, t, p.shard, l[k := l[k].(deadline := Some(deadline))], p)
    case Commit =>
      if p.Subtracting? then Move(s, t, Holding(p.shard, p.evicts)).(used := s.used - p.size)
      else if p.Adding? then Move(s, t, Holding(p.shard, true)).(used := s.used + p.size, last := t)
      else Move(s, t, Checking).(used := s.used - p.size)
    case Unlock => Move(s, t, if p.evicts then Checking else Idle).(locks := s.locks[p.shard := None])
    case Load => Move(s, t, if Unlimited(cfg) || s.used <= cfg.maxBytes then Idle else Claiming)
    case Claim => Move(s, t, Scanning(s.cursor, 0)).(cursor := (s.cursor + 1) % WORD)
    case Visit =>
      var i := Visited(p.start, p.offset, cfg.mask);
      var l := s.shards[i];
      if l != [] then Put(s, t, i, l[1..], Evicted(Size(l[0])))
      else if p.offset + 1 == |s.shards| then Move(s, t, Idle)
      else Move(s, t, Scanning(p.start, p.offset + 1))
  }

  // ---------------------------------------------------------------------------------------
  // The balance.

  // Taken out of a shard, not yet off the counter.
  function Due(p: Phase): nat {
    if p.Subtracting? || p.Evicted? then p.size else 0
  }

  // Put into a shard, not yet on the counter.
  function Owed(p: Phase): nat {
    if p.Adding? then p.size else 0
  }

  function PendingSub(threads: seq<Phase>): nat {
    SumBy(Due, threads)
  }

  // What the holder of a lock still owes for the shard it protects.
  function Charge(lock: Option<nat>, threads: seq<Phase>): nat {
    if lock.Some? && lock.value < |threads| then Owed(threads[lock.value]) else 0
  }

  function PendingAdd(locks: seq<Option<nat>>, threads: seq<Phase>): nat {
    if locks == [] then 0 else Charge(locks[0], threads) + PendingAdd(locks[1..], threads)
  }

  // Every lock is held by the thread that thinks it holds it, and by no other.
  ghost predicate LocksAgree(s: State) {
    && (forall t :: 0 <= t < |s.threads| && Held(s.threads[t]).Some? ==>
          Held(s.threads[t]).value < |s.locks| && s.locks[Held(s.threads[t]).value] == Some(t))
    && (forall i :: 0 <= i < |s.locks| && s.locks[i].Some? ==>
          s.locks[i].value < |s.threads| && Held(s.threads[s.locks[i].value]) == Some(i))
  }

  // Bytes still to be charged are in the shard, under the lock of the thread that will charge them.
  ghost predicate ChargesBacked(s: State) {
    |s.shards| == |s.locks| && forall i :: 0 <= i < |s.locks| ==>
        Charge(s.locks[i], s.threads) <= TotalSize(s.shards[i])
  }

  predicate Balanced(s: State) {
    s.used == StoredBytes(s.shards) + PendingSub(s.threads) - PendingAdd(s.locks, s.threads)
  }

  lemma {:induction false} PendingAddSame(locks: seq<Option<nat>>, threads: seq<Phase>, locks': seq<Option<nat>>,
                                          threads': seq<Phase>)
    requires |locks| == |locks'|
    requires forall j :: 0 <= j < |locks| ==> Charge(locks'[j], threads') == Charge(locks[j], threads)
    ensures PendingAdd(locks', threads') == PendingAdd(locks, threads)
  {
    if locks != [] {
      PendingAddSame(locks[1..], threads, locks'[1..], threads');
    }
  }

  lemma {:induction false} PendingAddUpdate(locks: seq<Option<nat>>, threads: seq<Phase>, threads': seq<Phase>, i: nat)
    requires i < |locks|
    requires forall j :: 0 <= j < |locks| && j != i ==> Charge(locks[j], threads') == Charge(locks[j], threads)
    ensures PendingAdd(locks, threads') + Charge(locks[i], threads) ==
        PendingAdd(locks, threads) + Charge(locks[i], threads')
  {
    if i == 0 {
      PendingAddSame(locks[1..], threads, locks[1..], threads');
    } else {
      PendingAddUpdate(locks[1..], threads, threads', i - 1);
    }
  }

  lemma {:induction false} PendingAddStored(locks: seq<Option<nat>>, threads: seq<Phase>, shards: seq<Recent>)
    requires |locks| == |shards|
    requires forall i :: 0 <= i < |locks| ==> Charge(locks[i], threads) <= TotalSize(shards[i])
    ensures PendingAdd(locks, threads) <= StoredBytes(shards)
  {
    if locks != [] {
      PendingAddStored(locks[1..], threads, shards[1..]);
    }
  }

  // What is known in every reachable state about locks and bytes.
  ghost predicate Accounted(s: State) {
    LocksAgree(s) && ChargesBacked(s) && Balanced(s)
  }

  // The counter never drops below the bytes that some thread is about to take off it, so no fetch_sub
  // wraps.
  lemma CounterCoversDue(s: State, t: nat)
    requires Accounted(s) && t < |s.threads|
    ensures 0 <= Due(s.threads[t]) <= s.used
  {
    PendingAddStored(s.locks, s.threads, s.shards);
    SumByAtLeast(Due, s.threads, t);
  }

  // A thread changes phase while its locks stay as they are; only its own charge can change.
  lemma MoveCharges(s: State, t: nat, p: Phase)
    requires LocksAgree(s) && t < |s.threads| && Held(p) == Held(s.threads[t])
    ensures LocksAgree(Move(s, t, p))
    ensures PendingAdd(s.locks, s.threads[t := p]) + Owed(s.threads[t]) == PendingAdd(s.locks, s.threads) + Owed(p)
    ensures forall j :: 0 <= j < |s.locks| && Held(p) != Some(j) ==>
        Charge(s.locks[j], s.threads[t := p]) == Charge(s.locks[j], s.threads)
    ensures Held(p).Some? ==> Charge(s.locks[Held(p).value], s.threads[t := p]) == Owed(p)
  {
    var threads' := s.threads[t := p];
    forall j | 0 <= j < |s.locks| && Held(p) != Some(j)
        ensures Charge(s.locks[j], threads') == Charge(s.locks[j], s.threads) {
      assert s.locks[j] != Some(t);
    }
    if Held(p).Some? {
      PendingAddUpdate(s.locks, s.threads, threads', Held(p).value);
    } else {
      PendingAddSame(s.locks, s.threads, s.locks, threads');
    }
  }

  // Any change of one shard and one phase under the shard's lock that balances.
  lemma PutAccounted(s: State, t: nat, l: Recent, p: Phase)
    requires Accounted(s) && t < |s.threads| && Held(s.threads[t]).Some? && Held(p) == Held(s.threads[t])
    requires Owed(p) <= TotalSize(l)
    requires TotalSize(l) + Due(p) + Owed(s.threads[t])
          == TotalSize(s.shards[Held(p).value]) + Due(s.threads[t]) + Owed(p)
    ensures Accounted(Put(s, t, Held(p).value, l, p))
  {
    var i := Held(p).value;
    StoredUpdate(s.shards, i, l);
    SumByUpdate(Due, s.threads, t, p);
    MoveCharges(s, t, p);
  }

  // A change of phase and counter alone that balances.
  lemma MoveAccounted(s: State, s': State, t: nat, p: Phase)
    requires Accounted(s) && t < |s.threads| && Held(p) == Held(s.threads[t])
    requires Owed(p) <= Owed(s.threads[t])
    requires s'.shards == s.shards && s'.locks == s.locks && s'.threads == s.threads[t := p]
    requires s'.used + Due(s.threads[t]) + Owed(p) == s.used + Due(p) + Owed(s.threads[t])
    ensures Accounted(s')
  {
    SumByUpdate(Due, s.threads, t, p);
    MoveCharges(s, t, p);
    forall j | 0 <= j < |s'.locks| ensures Charge(s'.locks[j], s'.threads) <= TotalSize(s'.shards[j]) {
      assert Charge(s.locks[j], s.threads) <= TotalSize(s.shards[j]);
    }
  }

  lemma LockAccounted(s: State, t: nat, i: nat)
    requires Accounted(s) && t < |s.threads| && s.threads[t].Idle? && i < |s.locks| && s.locks[i].None?
    ensures Accounted(Move(s, t, Holding(i, false)).(locks := s.locks[i := Some(t)]))
  {
    var s' := Move(s, t, Holding(i, false)).(locks := s.locks[i := Some(t)]);
    SumByUpdate(Due, s.threads, t, Holding(i, false));
    forall j | 0 <= j < |s.locks| ensures Charge(s'.locks[j], s'.threads) == Charge(s.locks[j], s.threads) {
      assert s.locks[j] != Some(t);
    }
    PendingAddSame(s.locks, s.threads, s'.locks, s'.threads);
  }

  function Unlocked(s: State, t: nat, p: Phase): State
    requires t < |s.threads| && s.threads[t].Holding? && s.threads[t].shard < |s.locks|
  {
    Move(s, t, p).(locks := s.locks[s.threads[t].shard := None])
  }

  lemma UnlockLocks(s: State, t: nat, p: Phase)
    requires LocksAgree(s) && t < |s.threads| && s.threads[t].Holding? && Held(p).None?
    ensures s.threads[t].shard < |s.locks|
    ensures LocksAgree(Unlocked(s, t, p))
    ensures forall j :: 0 <= j < |s.locks| ==>
              Charge(Unlocked(s, t, p).locks[j], Unlocked(s, t, p).threads) == Charge(s.locks[j], s.threads)
  {
    var i := s.threads[t].shard;
    assert Held(s.threads[t]) == Some(i);
    var s' := Unlocked(s, t, p);
    forall j | 0 <= j < |s.locks| ensures Charge(s'.locks[j], s'.threads) == Charge(s.locks[j], s.threads) {
      if j != i {
        assert s.locks[j] != Some(t);
      }
    }
  }

  lemma UnlockAccounted(s: State, t: nat, p: Phase)
    requires Accounted(s) && t < |s.threads| && s.threads[t].Holding? && (p.Idle? || p.Checking?)
    ensures s.threads[t].shard < |s.locks| && Accounted(Unlocked(s, t, p))
  {
    UnlockLocks(s, t, p);
    SumByUpdate(Due, s.threads, t, p);
    PendingAddSame(s.locks, s.threads, Unlocked(s, t, p).locks, Unlocked(s, t, p).threads);
  }

  // Popping from a shard nobody holds.
  lemma PopAccounted(s: State, t: nat, i: nat)
    requires Accounted(s) && t < |s.threads| && s.threads[t].Scanning?
    requires i < |s.shards| && s.locks[i].None? && s.shards[i] != []
    ensures Accounted(Put(s, t, i, s.shards[i][1..], Evicted(Size(s.shards[i][0]))))
  {
    var l, p := s.shards[i], Evicted(Size(s.shards[i][0]));
    StoredUpdate(s.shards, i, l[1..]);
    SumByUpdate(Due, s.threads, t, p);
    MoveCharges(s, t, p);
    var s' := Put(s, t, i, l[1..], p);
    forall j | 0 <= j < |s'.locks| ensures Charge(s'.locks[j], s'.threads) <= TotalSize(s'.shards[j]) {
      assert Charge(s.locks[j], s.threads) <= TotalSize(s.shards[j]);
    }
  }

  // The steps that change a shard under its lock.
  lemma ShardStepAccounted(cfg: Config, s: State, t: nat, a: Action)
    requires Accounted(s) && Enabled(cfg, s, t, a)
    requires a.Remove? || a.Insert? || a.Rewrite? || a.Touch? || a.Retime?
    ensures Accounted(Apply(cfg, s, t, a))
  {
    var p := s.threads[t];
    var l := s.shards[p.shard];
    match a
    case Remove(k) =>
      TotalSizeDrop(l, k);
      PutAccounted(s, t, DropAt(l, k), Subtracting(p.shard, Size(l[k]), p.evicts));
    case Insert(e) =>
      TotalSizeAppend(l, [e]);
      SingleSize(e);
      PutAccounted(s, t, l + [e], Adding(p.shard, Size(e)));
    case Rewrite(k, value) =>
      var e := Entry(l[k].key, value, None);
      OverwrittenSize(l, k, e);
      TotalSizeDrop(l, k);
      PutAccounted(s, t, DropAt(l, k) + [e], Apply(cfg, s, t, a).threads[t]);
    case Touch(k) =>
      MovedSize(l, k);
      PutAccounted(s, t, DropAt(l, k) + [l[k]], p);
    case Retime(k, deadline) =>
      DeadlineKeepsSize(l, k, deadline);
      PutAccounted(s, t, l[k := l[k].(deadline := Some(deadline))], p);
  }

  // Every step of every thread keeps the books.
  lemma StepAccounted(cfg: Config, s: State, t: nat, a: Action)
    requires Accounted(s) && Enabled(cfg, s, t, a)
    ensures Accounted(Apply(cfg, s, t, a))
  {
    var p, s' := s.threads[t], Apply(cfg, s, t, a);
    match a
    case Lock(i) => LockAccounted(s, t, i);
    case Unlock => UnlockAccounted(s, t, if p.evicts then Checking else Idle);
    case Commit => MoveAccounted(s, s', t, s'.threads[t]);
    case Load => MoveAccounted(s, s', t, s'.threads[t]);
    case Claim => MoveAccounted(s, s', t, s'.threads[t]);
    case Visit =>
      var i := Visited(p.start, p.offset, cfg.mask);
      if s.shards[i] != [] {
        PopAccounted(s, t, i);
      } else {
        MoveAccounted(s, s', t, s'.threads[t]);
      }
    case _ => ShardStepAccounted(cfg, s, t, a);
  }

  // ---------------------------------------------------------------------------------------
  // The budget.

  // A thread that has charged bytes and not yet left evict_if_needed.
  predicate Obliged(p: Phase) {
    match p
    case Holding(_, evicts) => evicts
    case Subtracting(_, _, evicts) => evicts
    case Checking => true
    case Claiming => true
    case Scanning(_, _) => true
    case Evicted(_) => true
    case _ => false
  }

  // The shards a scan has passed hold no bytes.
  ghost predicate PassedEmpty(cfg: Config, s: State, p: Phase) {
    p.Scanning? ==>
      && p.offset < |s.shards|
      && forall o :: 0 <= o < p.offset ==>
          Visited(p.start, o, cfg.mask) < |s.shards| && TotalSize(s.shards[Visited(p.start, o, cfg.mask)]) == 0
  }

  ghost predicate SomeoneAdding(s: State) {
    exists t :: 0 <= t < |s.threads| && s.threads[t].Adding?
  }

  // Over budget only while someone has yet to charge bytes, or the last to charge has yet to evict.
  ghost predicate Guarded(cfg: Config, s: State) {
    || Unlimited(cfg)
    || SomeoneAdding(s)
    || StoredBytes(s.shards) <= cfg.maxBytes
    || (s.last < |s.threads| && Obliged(s.threads[s.last]) && PassedEmpty(cfg, s, s.threads[s.last]))
  }

  ghost predicate Sized(cfg: Config, s: State) {
    && |s.shards| == |s.locks| == cfg.mask + 1
    && exists k :: 0 <= k <= 63 && |s.shards| == Pow2(k)
  }

  ghost predicate Inv(cfg: Config, s: State) {
    Sized(cfg, s) && Accounted(s) && Guarded(cfg, s)
  }

  lemma {:induction false} NoAdderNoCharge(locks: seq<Option<nat>>, threads: seq<Phase>)
    requires forall t :: 0 <= t < |threads| ==> !threads[t].Adding?
    ensures PendingAdd(locks, threads) == 0
  {
    if locks != [] {
      NoAdderNoCharge(locks[1..], threads);
    }
  }

  // A scan that passed every shard has seen them all.
  lemma FullScanMeansNoBytes(cfg: Config, s: State, start: nat)
    requires Sized(cfg, s)
    requires forall o :: 0 <= o < |s.shards| ==>
        Visited(start, o, cfg.mask) < |s.shards| && TotalSize(s.shards[Visited(start, o, cfg.mask)]) == 0
    ensures StoredBytes(s.shards) == 0
  {
    var k :| 0 <= k <= 63 && |s.shards| == Pow2(k);
    forall i | 0 <= i < |s.shards| ensures TotalSize(s.shards[i]) == 0 {
      var o := OffsetOf(start, i, Pow2(k));
      ScanVisitsEachOnce(start, i, k, 0);
      ScanVisitsEachOnce(start, i, k, o);
      assert Visited(start, o, cfg.mask) == i;
    }
    SumByZero(TotalSize, s.shards);
  }

  // Shards that lose bytes or keep them.
  predicate Shrinks(shards: seq<Recent>, shards': seq<Recent>) {
    |shards| == |shards'| && forall i :: 0 <= i < |shards| ==> TotalSize(shards'[i]) <= TotalSize(shards[i])
  }

  lemma {:induction false} ShrinksBytes(shards: seq<Recent>, shards': seq<Recent>)
    requires Shrinks(shards, shards')
    ensures StoredBytes(shards') <= StoredBytes(shards)
  {
    if shards != [] {
      ShrinksBytes(shards[1..], shards'[1..]);
    }
  }

  // The steps that put bytes into a shard.
  predicate Grows(s: State, t: nat, a: Action)
    requires t < |s.threads|
  {
    var p := s.threads[t];
    || a.Insert?
    || (a.Rewrite? && p.Holding? && p.shard < |s.shards| && a.at < |s.shards[p.shard]|
        && |a.value| > |s.shards[p.shard][a.at].value|)
  }

  lemma OtherStepsShrink(cfg: Config, s: State, t: nat, a: Action)
    requires Enabled(cfg, s, t, a) && !Grows(s, t, a)
    ensures Shrinks(s.shards, Apply(cfg, s, t, a).shards)
  {
    var p := s.threads[t];
    match a
    case Remove(k) => TotalSizeDrop(s.shards[p.shard], k);
    case Rewrite(k, value) => OverwrittenSize(s.shards[p.shard], k, Entry(s.shards[p.shard][k].key, value, None));
    case Touch(k) => MovedSize(s.shards[p.shard], k);
    case Retime(k, deadline) => DeadlineKeepsSize(s.shards[p.shard], k, deadline);
    case _ =>
  }

  lemma PassedEmptyShrinks(cfg: Config, s: State, s': State, p: Phase)
    requires Shrinks(s.shards, s'.shards) && PassedEmpty(cfg, s, p)
    ensures PassedEmpty(cfg, s', p)
  {
  }

  // Leaving evict_if_needed because the counter was low enough.
  lemma ExitByLoad(cfg: Config, s: State)
    requires Accounted(s) && s.used <= cfg.maxBytes && !SomeoneAdding(s)
    ensures StoredBytes(s.shards) <= cfg.maxBytes
  {
    NoAdderNoCharge(s.locks, s.threads);
  }

  // What the thread the budget depends on has to leave behind.
  ghost predicate StillGuarded(cfg: Config, s: State, t: nat)
    requires t < |s.threads|
  {
    || StoredBytes(s.shards) <= cfg.maxBytes
    || (Obliged(s.threads[t]) && PassedEmpty(cfg, s, s.threads[t]))
  }

  lemma LastVisit(cfg: Config, s: State, t: nat)
    requires Sized(cfg, s) && Enabled(cfg, s, t, Visit) && PassedEmpty(cfg, s, s.threads[t])
    ensures StillGuarded(cfg, Apply(cfg, s, t, Visit), t)
  {
    var p := s.threads[t];
    if s.shards[Visited(p.start, p.offset, cfg.mask)] == [] && p.offset + 1 == |s.shards| {
      FullScanMeansNoBytes(cfg, s, p.start);
    }
  }

  // That thread takes a step of its own.
  lemma LastStep(cfg: Config, s: State, t: nat, a: Action)
    requires Inv(cfg, s) && Enabled(cfg, s, t, a) && !Grows(s, t, a)
    requires !Unlimited(cfg) && !SomeoneAdding(s)
    requires Obliged(s.threads[t]) && PassedEmpty(cfg, s, s.threads[t])
    ensures StillGuarded(cfg, Apply(cfg, s, t, a), t)
  {
    if a.Visit? {
      LastVisit(cfg, s, t);
    } else if a.Load? && s.used <= cfg.maxBytes {
      ExitByLoad(cfg, s);
    } else {
      assert Obliged(Apply(cfg, s, t, a).threads[t]);
    }
  }

  // A step that neither grows a shard nor charges for one, with nobody left to charge.
  lemma ShrinkGuarded(cfg: Config, s: State, t: nat, a: Action)
    requires Inv(cfg, s) && Enabled(cfg, s, t, a) && !Grows(s, t, a)
    requires !Unlimited(cfg) && !SomeoneAdding(s)
    ensures Guarded(cfg, Apply(cfg, s, t, a))
  {
    var s' := Apply(cfg, s, t, a);
    OtherStepsShrink(cfg, s, t, a);
    ShrinksBytes(s.shards, s'.shards);
    if StoredBytes(s.shards) > cfg.maxBytes {
      if s.last == t {
        LastStep(cfg, s, t, a);
      } else {
        PassedEmptyShrinks(cfg, s, s', s.threads[s.last]);
      }
    }
  }

  lemma GrowGuarded(cfg: Config, s: State, t: nat, a: Action)
    requires Enabled(cfg, s, t, a) && Grows(s, t, a)
    ensures Guarded(cfg, Apply(cfg, s, t, a))
  {
    assert Apply(cfg, s, t, a).threads[t].Adding?;
  }

  lemma ChargeGuarded(cfg: Config, s: State, t: nat)
    requires Enabled(cfg, s, t, Commit) && s.threads[t].Adding?
    ensures Guarded(cfg, Apply(cfg, s, t, Commit))
  {
    var s' := Apply(cfg, s, t, Commit);
    assert s'.last == t && Obliged(s'.threads[t]);
  }

  // Someone has still to charge, and only its own commit ends that.
  lemma AdderGuards(cfg: Config, s: State, t: nat, a: Action)
    requires Enabled(cfg, s, t, a) && SomeoneAdding(s) && !(a.Commit? && s.threads[t].Adding?)
    ensures Guarded(cfg, Apply(cfg, s, t, a))
  {
    var u :| 0 <= u < |s.threads| && s.threads[u].Adding?;
    assert Apply(cfg, s, t, a).threads[u].Adding?;
  }

  lemma StepGuarded(cfg: Config, s: State, t: nat, a: Action)
    requires Inv(cfg, s) && Enabled(cfg, s, t, a)
    ensures Guarded(cfg, Apply(cfg, s, t, a))
  {
    if Grows(s, t, a) {
      GrowGuarded(cfg, s, t, a);
    } else if a.Commit? && s.threads[t].Adding? {
      ChargeGuarded(cfg, s, t);
    } else if SomeoneAdding(s) {
      AdderGuards(cfg, s, t, a);
    } else if !Unlimited(cfg) {
      ShrinkGuarded(cfg, s, t, a);
    }
  }

  lemma StepInv(cfg: Config, s: State, t: nat, a: Action)
    requires Inv(cfg, s) && Enabled(cfg, s, t, a)
    ensures Inv(cfg, Apply(cfg, s, t, a))
  {
    StepAccounted(cfg, s, t, a);
    StepGuarded(cfg, s, t, a);
  }

  // ---------------------------------------------------------------------------------------
  // Runs.

  datatype Turn = Turn(thread: nat, action: Action)

  // `states` is a run of any number of threads: it starts empty and idle, and each state follows from
  // the one before by one turn of one thread.
  ghost predicate Run(cfg: Config, states: seq<State>, turns: seq<Turn>) {
    && |states| == |turns| + 1
    && Initial(cfg, states[0])
    && forall i :: 0 <= i < |turns| ==>
         && Enabled(cfg, states[i], turns[i].thread, turns[i].action)
         && states[i + 1] == Apply(cfg, states[i], turns[i].thread, turns[i].action)
  }

  ghost predicate Initial(cfg: Config, s: State) {
    && Sized(cfg, s) && s.used == 0
    && (forall i :: 0 <= i < |s.shards| ==> s.shards[i] == [])
    && (forall i :: 0 <= i < |s.locks| ==> s.locks[i] == None)
    && (forall t :: 0 <= t < |s.threads| ==> s.threads[t] == Idle)
  }

  lemma InitialInv(cfg: Config, s: State)
    requires Initial(cfg, s)
    ensures Inv(cfg, s)
  {
    AllEmpty(s.shards);
    SumByZero(Due, s.threads);
    NoAdderNoCharge(s.locks, s.threads);
  }

  lemma {:induction false} RunInv(cfg: Config, states: seq<State>, turns: seq<Turn>, i: nat)
    requires Run(cfg, states, turns) && i < |states|
    ensures Inv(cfg, states[i])
  {
    if i == 0 {
      InitialInv(cfg, states[0]);
    } else {
      RunInv(cfg, states, turns, i - 1);
      StepInv(cfg, states[i - 1], turns[i - 1].thread, turns[i - 1].action);
    }
  }

  // In every state of every run the counter is stored bytes plus bytes taken out and not yet
  // subtracted minus bytes put in and not yet added; it is never negative, and never less than what
  // any thread is about to subtract.
  lemma CounterExact(cfg: Config, states: seq<State>, turns: seq<Turn>, i: nat, t: nat)
    requires Run(cfg, states, turns) && i < |states| && t < |states[i].threads|
    ensures var s := states[i];
            && s.used == StoredBytes(s.shards) + PendingSub(s.threads) - PendingAdd(s.locks, s.threads)
            && 0 <= Due(s.threads[t]) <= s.used
  {
    RunInv(cfg, states, turns, i);
    CounterCoversDue(states[i], t);
  }

  // Whenever no operation is in flight the counter is the exact sum of entry sizes, and a bounded
  // engine is within its budget.
  lemma QuiescentWithinBudget(cfg: Config, states: seq<State>, turns: seq<Turn>, i: nat)
    requires Run(cfg, states, turns) && i < |states|
    requires forall t :: 0 <= t < |states[i].threads| ==> states[i].threads[t] == Idle
    ensures states[i].used == StoredBytes(states[i].shards)
    ensures Unlimited(cfg) || states[i].used <= cfg.maxBytes
  {
    RunInv(cfg, states, turns, i);
    SumByZero(Due, states[i].threads);
    NoAdderNoCharge(states[i].locks, states[i].threads);
  }
}
