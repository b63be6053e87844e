/**
 Why Linear.InterleavedIsPlainMap speaks of the order of clock readings. The engine
 (hkv-engine/src/memory.rs) reads the clock before it takes the shard's lock, so a thread can enter with a
 reading older than that of the thread before it. Here one does, on an unlimited engine with one shard: a
 get at 9 removes the entry that a get at 1 would still have seen.
 */
module StaleReading {
  import opened Base
  import opened Masking
  import opened Recency
  import opened Cache
  import opened PlainStore
  import opened Accounting
  import opened Linear

  const CFG := Config(0, USIZE_MAX, _ => 0)

  const FRESH_ENTRY := Entry([], [], None)
  const DATED_ENTRY := Entry([], [], Some(5))

  const SET := Call(0, Set([], []), 0, 0)
  const EXPIRE := Call(1, Expire([], 5), 0, 1)
  const EARLY_GET := Call(2, Get([]), 1, 2)
  const LATE_GET := Call(3, Get([]), 9, 2)

  const LOG: seq<Logged> :=
    [Logged(SET, Done), Logged(EXPIRE, Expiry(Applied)), Logged(LATE_GET, Value(None)), Logged(EARLY_GET, Value(None))]

  const FINISHED: seq<Finished> := [Finished(SET, 0, 1), Finished(EXPIRE, 1, 2)]

  const CALLERS: seq<nat> := [0, 0, 1, 0]

  // Two threads on one shard; entries of size zero keep the counter at zero.
  function At(l: Recent, lock: Option<nat>, clock: nat, p: Phase, p': Phase, job: Job, job': Job,
              logged: nat, finished: nat, called: nat): World
    requires logged <= 4 && finished <= 2 && called <= 4
  {
    World(State([l], [lock], 0, 0, [p, p'], 0), [job, job'], [clock], LOG[..logged], FINISHED[..finished],
          CALLERS[..called])
  }

  const START := At([], None, 0, Idle, Idle, Resting, Resting, 0, 0, 0)
  const SET_CALLED := At([], None, 0, Idle, Idle, Waiting(SET), Resting, 0, 0, 1)
  const SET_LOCKED := At([], Some(0), 0, Holding(0, false), Idle, Inside(SET), Resting, 0, 0, 1)
  const SET_INSERTED := At([FRESH_ENTRY], Some(0), 0, Adding(0, 0), Idle, Answered(SET, 0), Resting, 1, 0, 1)
  const SET_COMMITTED := At([FRESH_ENTRY], Some(0), 0, Holding(0, true), Idle, Answered(SET, 0), Resting, 1, 0, 1)
  const SET_UNLOCKED := At([FRESH_ENTRY], None, 0, Checking, Idle, Answered(SET, 0), Resting, 1, 0, 1)
  const SET_LOADED := At([FRESH_ENTRY], None, 0, Idle, Idle, Answered(SET, 0), Resting, 1, 0, 1)
  const SET_DONE := At([FRESH_ENTRY], None, 0, Idle, Idle, Resting, Resting, 1, 1, 1)
  const EXPIRE_CALLED := At([FRESH_ENTRY], None, 0, Idle, Idle, Waiting(EXPIRE), Resting, 1, 1, 2)
  const EXPIRE_LOCKED := At([FRESH_ENTRY], Some(0), 0, Holding(0, false), Idle, Inside(EXPIRE), Resting, 1, 1, 2)
  const EXPIRE_RETIMED := At([DATED_ENTRY], Some(0), 0, Holding(0, false), Idle, Answered(EXPIRE, 1), Resting, 2, 1, 2)
  const EXPIRE_UNLOCKED := At([DATED_ENTRY], None, 0, Idle, Idle, Answered(EXPIRE, 1), Resting, 2, 1, 2)
  const EXPIRE_DONE := At([DATED_ENTRY], None, 0, Idle, Idle, Resting, Resting, 2, 2, 2)
  const EARLY_CALLED := At([DATED_ENTRY], None, 0, Idle, Idle, Resting, Waiting(EARLY_GET), 2, 2, 3)
  const LATE_CALLED := At([DATED_ENTRY], None, 0, Idle, Idle, Waiting(LATE_GET), Waiting(EARLY_GET), 2, 2, 4)
  const LATE_LOCKED := At([DATED_ENTRY], Some(0), 9, Holding(0, false), Idle, Inside(LATE_GET), Waiting(EARLY_GET),
                          2, 2, 4)
  const LATE_REMOVED := At([], Some(0), 9, Subtracting(0, 0, false), Idle, Answered(LATE_GET, 2), Waiting(EARLY_GET),
                           3, 2, 4)
  const LATE_COMMITTED := At([], Some(0), 9, Holding(0, false), Idle, Answered(LATE_GET, 2), Waiting(EARLY_GET),
                             3, 2, 4)
  const LATE_UNLOCKED := At([], None, 9, Idle, Idle, Answered(LATE_GET, 2), Waiting(EARLY_GET), 3, 2, 4)
  const EARLY_LOCKED := At([], Some(1), 9, Idle, Holding(0, false), Answered(LATE_GET, 2), Inside(EARLY_GET), 3, 2, 4)
  const EARLY_UNLOCKED := At([], None, 9, Idle, Idle, Answered(LATE_GET, 2), Answered(EARLY_GET, 3), 4, 2, 4)

  ghost predicate Leads(w: World, t: nat, d: Deed, w': World) {
    Can(CFG, w, t, d) && w' == Perform(CFG, w, t, d)
  }

  lemma OneShard(key: Bytes)
    ensures ShardOf(CFG, key) == 0
  {
  }

  lemma LogSteps()
    ensures LOG[..1] == LOG[..0] + [LOG[0]] && LOG[..2] == LOG[..1] + [LOG[1]]
    ensures LOG[..3] == LOG[..2] + [LOG[2]] && LOG[..4] == LOG[..3] + [LOG[3]]
  {
  }

  lemma CallerSteps()
    ensures CALLERS[..1] == CALLERS[..0] + [0] && CALLERS[..2] == CALLERS[..1] + [0]
    ensures CALLERS[..3] == CALLERS[..2] + [1] && CALLERS[..4] == CALLERS[..3] + [0]
  {
  }

  lemma FinishedSteps()
    ensures FINISHED[..1] == FINISHED[..0] + [FINISHED[0]] && FINISHED[..2] == FINISHED[..1] + [FINISHED[1]]
  {
  }

  lemma Lookups()
    ensures Find([], []) == None
    ensures Find([FRESH_ENTRY], []) == Some(FRESH_ENTRY) && Find([DATED_ENTRY], []) == Some(DATED_ENTRY)
  {
  }

  lemma SetCalled()
    ensures Leads(START, 0, Invoke(Set([], []), 0), SET_CALLED)
  {
    CallerSteps();
  }

  lemma SetLocked()
    ensures Leads(SET_CALLED, 0, Do(Lock(0)), SET_LOCKED)
  {
    OneShard([]);
  }

  lemma SetInserted()
    ensures Leads(SET_LOCKED, 0, Do(Insert(FRESH_ENTRY)), SET_INSERTED)
  {
    OneShard([]);
    Lookups();
    LogSteps();
    var none: Recent := [];
    assert none + [FRESH_ENTRY] == [FRESH_ENTRY] && Size(FRESH_ENTRY) == 0;
    assert OnShard([], Set([], []), 0).1 == Done;
  }

  lemma SetCommitted()
    ensures Leads(SET_INSERTED, 0, Do(Commit), SET_COMMITTED)
  {
  }

  lemma SetUnlocked()
    ensures Leads(SET_COMMITTED, 0, Do(Unlock), SET_UNLOCKED)
  {
  }

  lemma SetLoaded()
    ensures Leads(SET_UNLOCKED, 0, Do(Load), SET_LOADED)
  {
  }

  lemma SetDone()
    ensures Leads(SET_LOADED, 0, Return, SET_DONE)
  {
    FinishedSteps();
  }

  lemma ExpireCalled()
    ensures Leads(SET_DONE, 0, Invoke(Expire([], 5), 0), EXPIRE_CALLED)
  {
    CallerSteps();
  }

  lemma ExpireLocked()
    ensures Leads(EXPIRE_CALLED, 0, Do(Lock(0)), EXPIRE_LOCKED)
  {
    OneShard([]);
  }

  lemma ExpireRetimed()
    ensures Leads(EXPIRE_LOCKED, 0, Do(Retime(0, 5)), EXPIRE_RETIMED)
  {
    OneShard([]);
    Lookups();
    LogSteps();
    assert [FRESH_ENTRY][0 := DATED_ENTRY] == [DATED_ENTRY];
    assert FRESH_ENTRY.(deadline := Some(5)) == DATED_ENTRY;
    assert OnShard([FRESH_ENTRY], Expire([], 5), 0).1 == Expiry(Applied);
  }

  lemma ExpireUnlocked()
    ensures Leads(EXPIRE_RETIMED, 0, Do(Unlock), EXPIRE_UNLOCKED)
  {
  }

  lemma ExpireDone()
    ensures Leads(EXPIRE_UNLOCKED, 0, Return, EXPIRE_DONE)
  {
    FinishedSteps();
  }

  lemma EarlyCalled()
    ensures Leads(EXPIRE_DONE, 1, Invoke(Get([]), 1), EARLY_CALLED)
  {
    CallerSteps();
  }

  lemma LateCalled()
    ensures Leads(EARLY_CALLED, 0, Invoke(Get([]), 9), LATE_CALLED)
  {
    CallerSteps();
  }

  lemma LateLocked()
    ensures Leads(LATE_CALLED, 0, Do(Lock(0)), LATE_LOCKED)
  {
    OneShard([]);
  }

  lemma LateRemoved()
    ensures Leads(LATE_LOCKED, 0, Do(Remove(0)), LATE_REMOVED)
  {
    OneShard([]);
    Lookups();
    LogSteps();
    assert DropAt([DATED_ENTRY], 0) == [];
    assert OnShard([DATED_ENTRY], Get([]), 9).1 == Value(None);
  }

  lemma LateCommitted()
    ensures Leads(LATE_REMOVED, 0, Do(Commit), LATE_COMMITTED)
  {
  }

  lemma LateUnlocked()
    ensures Leads(LATE_COMMITTED, 0, Do(Unlock), LATE_UNLOCKED)
  {
  }

  lemma EarlyLocked()
    ensures Leads(LATE_UNLOCKED, 1, Do(Lock(0)), EARLY_LOCKED)
  {
    OneShard([]);
  }

  lemma EarlyUnlocked()
    ensures Leads(EARLY_LOCKED, 1, Do(Unlock), EARLY_UNLOCKED)
  {
    OneShard([]);
    Lookups();
    LogSteps();
  }

  // A history told step by step, every call so far prompt.
  datatype Tale = Tale(worlds: seq<World>, steps: seq<Stride>)

  ghost predicate Told(tale: Tale) {
    History(CFG, tale.worlds, tale.steps) && AllPrompt(CFG, tale.worlds, tale.steps)
  }

  function Last(tale: Tale): World
    requires tale.worlds != []
  {
    tale.worlds[|tale.worlds| - 1]
  }

  ghost function Next(tale: Tale, t: nat, d: Deed, w: World): (r: Tale)
    requires Told(tale) && Leads(Last(tale), t, d, w) && PromptStep(CFG, Last(tale), t, d)
    ensures Told(r) && Last(r) == w
    ensures r.worlds == tale.worlds + [w] && r.steps == tale.steps + [Stride(t, d)]
  {
    Tale(tale.worlds + [w], tale.steps + [Stride(t, d)])
  }

  lemma StartTale() returns (tale: Tale)
    ensures Told(tale) && Last(tale) == START
  {
    tale := Tale([START], []);
    assert |START.acc.shards| == Pow2(0);
  }

  lemma InsertTale() returns (tale: Tale)
    ensures Told(tale) && Last(tale) == SET_COMMITTED
  {
    tale := StartTale();
    SetCalled();
    tale := Next(tale, 0, Invoke(Set([], []), 0), SET_CALLED);
    SetLocked();
    tale := Next(tale, 0, Do(Lock(0)), SET_LOCKED);
    SetInserted();
    tale := Next(tale, 0, Do(Insert(FRESH_ENTRY)), SET_INSERTED);
    SetCommitted();
    tale := Next(tale, 0, Do(Commit), SET_COMMITTED);
  }

  lemma SetTale() returns (tale: Tale)
    ensures Told(tale) && Last(tale) == SET_DONE
  {
    tale := InsertTale();
    SetUnlocked();
    tale := Next(tale, 0, Do(Unlock), SET_UNLOCKED);
    SetLoaded();
    tale := Next(tale, 0, Do(Load), SET_LOADED);
    SetDone();
    tale := Next(tale, 0, Return, SET_DONE);
  }

  lemma ExpireTale() returns (tale: Tale)
    ensures Told(tale) && Last(tale) == EXPIRE_DONE
  {
    tale := SetTale();
    ExpireCalled();
    tale := Next(tale, 0, Invoke(Expire([], 5), 0), EXPIRE_CALLED);
    ExpireLocked();
    tale := Next(tale, 0, Do(Lock(0)), EXPIRE_LOCKED);
    ExpireRetimed();
    tale := Next(tale, 0, Do(Retime(0, 5)), EXPIRE_RETIMED);
    ExpireUnlocked();
    tale := Next(tale, 0, Do(Unlock), EXPIRE_UNLOCKED);
    ExpireDone();
    tale := Next(tale, 0, Return, EXPIRE_DONE);
  }

  lemma LateTale() returns (tale: Tale)
    ensures Told(tale) && Last(tale) == LATE_UNLOCKED
  {
    tale := ExpireTale();
    EarlyCalled();
    tale := Next(tale, 1, Invoke(Get([]), 1), EARLY_CALLED);
    LateCalled();
    tale := Next(tale, 0, Invoke(Get([]), 9), LATE_CALLED);
    LateLocked();
    tale := Next(tale, 0, Do(Lock(0)), LATE_LOCKED);
    LateRemoved();
    tale := Next(tale, 0, Do(Remove(0)), LATE_REMOVED);
    LateCommitted();
    tale := Next(tale, 0, Do(Commit), LATE_COMMITTED);
    LateUnlocked();
    tale := Next(tale, 0, Do(Unlock), LATE_UNLOCKED);
  }

  lemma EarlyTale() returns (tale: Tale)
    ensures Told(tale) && Last(tale) == EARLY_LOCKED
  {
    tale := LateTale();
    EarlyLocked();
    tale := Next(tale, 1, Do(Lock(0)), EARLY_LOCKED);
  }

  lemma MapStillHasIt()
    ensures |Expected(LOG)| == 4 && Expected(LOG)[3] == Value(Some([]))
  {
    var events := Events(LOG);
    var key: Bytes := [];
    var m := map[key := Stored([], None)];
    var m' := map[key := Stored([], Some(5))];
    assert PlainStep(map[], Set(key, []), 0) == (m, Done);
    assert m[key := Stored([], Some(5))] == m';
    assert PlainStep(m, Expire(key, 5), 0) == (m', Expiry(Applied));
    assert PlainStep(m', Get(key), 9) == (m', Value(None));
    assert PlainStep(m', Get(key), 1) == (m', Value(Some([])));
    assert PlainAnswers(m', events[3..]) == [Value(Some([]))] + PlainAnswers(m', events[4..]);
    assert events[2..][1..] == events[3..];
    assert PlainAnswers(m', events[2..]) == [Value(None)] + PlainAnswers(m', events[3..]);
    assert events[1..][1..] == events[2..];
    assert PlainAnswers(m, events[1..]) == [Expiry(Applied)] + PlainAnswers(m', events[2..]);
  }

  lemma MapBeforeEarlyGet()
    ensures MapOf(LOG[..3]) == map[[] := Stored([], Some(5))]
  {
    var events := Events(LOG[..3]);
    var key: Bytes := [];
    var m := map[key := Stored([], None)];
    var m' := map[key := Stored([], Some(5))];
    assert PlainStep(map[], Set(key, []), 0).0 == m;
    assert m[key := Stored([], Some(5))] == m';
    assert PlainStep(m, Expire(key, 5), 0).0 == m';
    assert PlainAfter(m', events[2..]) == PlainAfter(PlainStep(m', Get(key), 9).0, events[2..][1..]);
    assert events[2..][1..] == [];
    assert events[1..][1..] == events[2..];
    assert PlainAfter(m, events[1..]) == PlainAfter(m', events[2..]);
  }

  // The early get is the only call that is not prompt: the shard has seen 9, past the deadline of its
  // key, and it reads 1.
  lemma EarlyGetIsLate()
    ensures !PromptStep(CFG, EARLY_LOCKED, 1, Do(Unlock))
  {
    OneShard([]);
    MapBeforeEarlyGet();
    assert !Prompt(MapOf(LOG[..3]), Get([]), 1, 9);
  }

  // On an unlimited engine one call, the last to take effect and the only one that is not prompt, misses
  // an entry that the map, asked in the same order and at the same readings, still has: an answer
  // allowed by InterleavedNeverStale and no more.
  lemma OldReadingMisses() returns (worlds: seq<World>, steps: seq<Stride>)
    ensures History(CFG, worlds, steps) && Unlimited(CFG) && steps != []
    ensures var n := |steps| - 1;
            && (forall i :: 0 <= i < n ==> PromptStep(CFG, worlds[i], steps[i].thread, steps[i].deed))
            && !PromptStep(CFG, worlds[n], steps[n].thread, steps[n].deed)
            && AnswersOk(true, worlds[n].log)
            && AnswersOk(false, worlds[n + 1].log) && !AnswersOk(true, worlds[n + 1].log)
  {
    var tale := EarlyTale();
    worlds, steps := tale.worlds + [EARLY_UNLOCKED], tale.steps + [Stride(1, Do(Unlock))];
    EarlyUnlocked();
    OneMore(tale, 1, Do(Unlock), EARLY_UNLOCKED);
    EarlyGetIsLate();
    LastAnswerIsInexact();
  }

  lemma LastAnswerIsInexact()
    ensures !AnswersOk(true, EARLY_UNLOCKED.log)
  {
    assert LOG[..4] == LOG;
    MapStillHasIt();
  }

  // One more step, prompt or not.
  lemma OneMore(tale: Tale, t: nat, d: Deed, w: World)
    requires Told(tale) && Leads(Last(tale), t, d, w)
    ensures var worlds, steps, n := tale.worlds + [w], tale.steps + [Stride(t, d)], |tale.steps|;
            && History(CFG, worlds, steps)
            && (forall i :: 0 <= i < n ==> PromptStep(CFG, worlds[i], steps[i].thread, steps[i].deed))
            && AnswersOk(true, worlds[n].log) && AnswersOk(false, worlds[n + 1].log)
  {
    var worlds, steps, n := tale.worlds + [w], tale.steps + [Stride(t, d)], |tale.steps|;
    forall i | 0 <= i < n ensures worlds[i] == tale.worlds[i] && steps[i] == tale.steps[i] {
    }
    InterleavedIsPlainMap(CFG, tale.worlds, tale.steps, n);
    InterleavedNeverStale(CFG, worlds, steps, n + 1);
  }
}
