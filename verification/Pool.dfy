/**
 The client's connection pool (hkv-client/src/pool.rs): a mutex-guarded queue of idle connections and
 a count of all of them, changed by separate critical sections while borrowers connect, talk to the
 server and drop their connections.

 The critical sections are functions on `Shared`; the class at the end is the code that computes
 them. The protocol of any number of borrowers is a state machine over those functions.
 */
module Pool {
  import opened Base
  import opened ClientResp

  type ConnId = nat

  datatype Config = Config(maxIdle: nat, maxTotal: nat)

  // What the mutex protects.
  datatype Shared = Shared(idle: seq<ConnId>, total: nat)

  function SaturatingSub1(n: nat): nat {
    if n == 0 then 0 else n - 1
  }

  function PopIdle(s: Shared): (Shared, Option<ConnId>) {
    if s.idle == [] then (s, None) else (Shared(s.idle[1..], s.total), Some(s.idle[0]))
  }

  function TryReserve(cfg: Config, s: Shared): (Shared, bool) {
    if s.total >= cfg.maxTotal then (s, false) else (Shared(s.idle, s.total + 1), true)
  }

  function ReleaseSlot(s: Shared): Shared {
    Shared(s.idle, SaturatingSub1(s.total))
  }

  function ReturnConnection(cfg: Config, s: Shared, conn: ConnId): Shared {
    if |s.idle| < cfg.maxIdle then Shared(s.idle + [conn], s.total) else Shared(s.idle, SaturatingSub1(s.total))
  }

  // ---------------------------------------------------------------------------------------
  // The protocol.

  // Where a borrower is between critical sections.
  datatype Phase =
    | Away
    | Missed                                 // idle was empty; about to reserve a slot
    | Connecting                             // slot reserved, connect in progress
    | ConnectFailed                          // about to give the slot back
    | Using(conn: ConnId, valid: bool)
    | Waiting(conn: ConnId, valid: bool)     // request written, reply not read

  datatype Owner = Pooled | Borrower(t: nat)

  // The client's end of a connection: reply bytes not read, requests not answered.
  datatype Wire = Wire(unread: Bytes, outstanding: nat)

  const CLEAN := Wire([], 0)

  datatype State = State(shared: Shared, borrowers: seq<Phase>, owner: map<ConnId, Owner>,
                         wires: map<ConnId, Wire>, nextId: ConnId)

  datatype Action =
    | Pop
    | Reserve
    | Connect
    | FailConnect
    | GiveBack
    | Send
    | Receive(reply: RespValue)     // the server's one reply arrives and is read
    | Break(wire: Wire)             // exec fails, with whatever was read or left unread
    | Drop

  ghost predicate Enabled(s: State, t: nat, a: Action) {
    && t < |s.borrowers|
    && var p := s.borrowers[t];
       match a
       case Pop => p.Away?
       case Reserve => p.Missed?
       case Connect => p.Connecting?
       case FailConnect => p.Connecting?
       case GiveBack => p.ConnectFailed?
       case Send => p.Using? && p.conn in s.wires
       case Receive(reply) => p.Waiting? && p.conn in s.wires && Printable(reply)
       case Break(_) => p.Using? || p.Waiting?
       case Drop => p.Using?
  }

  function Move(s: State, t: nat, p: Phase): State
    requires t < |s.borrowers|
  {
    s.(borrowers := s.borrowers[t := p])
  }

  // Reading one reply off a wire.
  function ReadOne(w: Wire, reply: RespValue): Option<Wire> {
    match ReadValue(w.unread + Print(reply))
    case Ok(_, rest) => Some(Wire(rest, if w.outstanding == 0 then 0 else w.outstanding - 1))
    case Err(_) => None
  }

  ghost function Apply(cfg: Config, s: State, t: nat, a: Action): State
    requires Enabled(s, t, a)
  {
    var p := s.borrowers[t];
    match a
    case Pop =>
      var (shared', got) := PopIdle(s.shared);
      if got.None? then Move(s, t, Missed)
      else Move(s, t, Using(got.value, true)).(shared := shared', owner := s.owner[got.value := Borrower(t)])
    case Reserve =>
      var (shared', ok) := TryReserve(cfg, s.shared);
      Move(s, t, if ok then Connecting else Away).(shared := shared')
    case Connect =>
      Move(s, t, Using(s.nextId, true)).(owner := s.owner[s.nextId := Borrower(t)],
                                         wires := s.wires[s.nextId := CLEAN], nextId := s.nextId + 1)
    case FailConnect => Move(s, t, ConnectFailed)
    case GiveBack => Move(s, t, Away).(shared := ReleaseSlot(s.shared))
    case Send =>
      var w := s.wires[p.conn];
      Move(s, t, Waiting(p.conn, p.valid)).(wires := s.wires[p.conn := w.(outstanding := w.outstanding + 1)])
    case Receive(reply) =>
      (match ReadOne(s.wires[p.conn], reply)
       case Some(w) => Move(s, t, Using(p.conn, p.valid)).(wires := s.wires[p.conn := w])
       case None => Move(s, t, Using(p.conn, false)))
    case Break(w) => Move(s, t, Using(p.conn, false)).(wires := s.wires[p.conn := w])
    case Drop =>
      if p.valid && |s.shared.idle| < cfg.maxIdle then
        Move(s, t, Away).(shared := ReturnConnection(cfg, s.shared, p.conn), owner := s.owner[p.conn := Pooled])
      else
        Move(s, t, Away).(shared := if p.valid then ReturnConnection(cfg, s.shared, p.conn) else ReleaseSlot(s.shared),
                          owner := s.owner - {p.conn})
  }

  // ---------------------------------------------------------------------------------------
  // The invariant.

  function ConnOf(p: Phase): Option<ConnId> {
    if p.Using? || p.Waiting? then Some(p.conn) else None
  }

  // Borrowers that account for one connection of `total`: held, connecting, or about to be given back.
  function Slot(p: Phase): nat {
    if p.Away? || p.Missed? then 0 else 1
  }

  function Slots(borrowers: seq<Phase>): nat {
    SumBy(Slot, borrowers)
  }

  predicate Counted(cfg: Config, s: State) {
    && s.shared.total == |s.shared.idle| + Slots(s.borrowers)
    && s.shared.total <= cfg.maxTotal
    && |s.shared.idle| <= cfg.maxIdle
  }

  // Every open connection is owned once: by the pool, or by the borrower that holds it.
  ghost predicate OwnedOnce(s: State) {
    && NoRepeats(s.shared.idle)
    && (forall c :: c in s.shared.idle <==> c in s.owner && s.owner[c] == Pooled)
    && (forall t :: 0 <= t < |s.borrowers| && ConnOf(s.borrowers[t]).Some? ==>
          ConnOf(s.borrowers[t]).value in s.owner && s.owner[ConnOf(s.borrowers[t]).value] == Borrower(t))
    && (forall c :: c in s.owner && s.owner[c].Borrower? ==>
          s.owner[c].t < |s.borrowers| && ConnOf(s.borrowers[s.owner[c].t]) == Some(c))
    && (forall c :: c in s.owner ==> c < s.nextId && c in s.wires)
  }

  // What the owner of a connection knows about its wire.
  predicate WireOk(owner: Owner, borrowers: seq<Phase>, w: Wire) {
    match owner
    case Pooled => w == CLEAN
    case Borrower(t) =>
      t < |borrowers| ==>
        match borrowers[t]
        case Using(_, valid) => valid ==> w == CLEAN
        case Waiting(_, valid) => valid ==> w == Wire([], 1)
        case _ => true
  }

  ghost predicate WiresClean(s: State) {
    forall c :: c in s.owner && c in s.wires ==> WireOk(s.owner[c], s.borrowers, s.wires[c])
  }

  ghost predicate Inv(cfg: Config, s: State) {
    Counted(cfg, s) && OwnedOnce(s) && WiresClean(s)
  }

  // A borrower about to release a slot or return a connection accounts for one of `total`: the
  // saturating subtractions never saturate.
  lemma NeverSaturates(cfg: Config, s: State, t: nat, a: Action)
    requires Counted(cfg, s) && Enabled(s, t, a) && (a.GiveBack? || a.Drop?)
    ensures s.shared.total >= 1 && SaturatingSub1(s.shared.total) == s.shared.total - 1
  {
    SumByAtLeast(Slot, s.borrowers, t);
  }

  lemma StepCounted(cfg: Config, s: State, t: nat, a: Action)
    requires Counted(cfg, s) && Enabled(s, t, a)
    ensures Counted(cfg, Apply(cfg, s, t, a))
  {
    var s' := Apply(cfg, s, t, a);
    SumByUpdate(Slot, s.borrowers, t, s'.borrowers[t]);
    if a.GiveBack? || a.Drop? {
      NeverSaturates(cfg, s, t, a);
    }
  }

  // Steps that move no connection.
  lemma QuietOwnedOnce(s: State, s': State, t: nat)
    requires OwnedOnce(s) && t < |s.borrowers| == |s'.borrowers|
    requires s'.borrowers == s.borrowers[t := s'.borrowers[t]] && ConnOf(s'.borrowers[t]) == ConnOf(s.borrowers[t])
    requires s'.owner == s.owner && s'.shared.idle == s.shared.idle && s'.nextId == s.nextId
    requires s.wires.Keys <= s'.wires.Keys
    ensures OwnedOnce(s')
  {
    forall u | 0 <= u < |s'.borrowers| ensures ConnOf(s'.borrowers[u]) == ConnOf(s.borrowers[u]) {
    }
  }

  lemma PopOwnedOnce(cfg: Config, s: State, t: nat)
    requires OwnedOnce(s) && Enabled(s, t, Pop) && s.shared.idle != []
    ensures OwnedOnce(Apply(cfg, s, t, Pop))
  {
    var s', got := Apply(cfg, s, t, Pop), s.shared.idle[0];
    assert got in s.shared.idle;
    SliceNoRepeats(s.shared.idle, 1, |s.shared.idle|);
    assert s'.shared.idle == s.shared.idle[1..|s.shared.idle|];
    forall i | 0 <= i < |s'.shared.idle| ensures s'.shared.idle[i] != got {
      Apart(s.shared.idle, i + 1, 0);
    }
    forall c ensures c in s'.shared.idle <==> c in s'.owner && s'.owner[c] == Pooled {
      assert c in s'.shared.idle <==> c in s.shared.idle && c != got;
    }
  }

  lemma ConnectOwnedOnce(cfg: Config, s: State, t: nat)
    requires OwnedOnce(s) && Enabled(s, t, Connect)
    ensures OwnedOnce(Apply(cfg, s, t, Connect))
  {
    assert s.nextId !in s.owner;
  }

  lemma DropOwnedOnce(cfg: Config, s: State, t: nat)
    requires OwnedOnce(s) && Enabled(s, t, Drop)
    ensures OwnedOnce(Apply(cfg, s, t, Drop))
  {
    var p, s' := s.borrowers[t], Apply(cfg, s, t, Drop);
    assert ConnOf(p) == Some(p.conn) && s.owner[p.conn] == Borrower(t) && p.conn !in s.shared.idle;
    if p.valid && |s.shared.idle| < cfg.maxIdle {
      AppendNoRepeats(s.shared.idle, p.conn);
      forall c ensures c in s'.shared.idle <==> c in s'.owner && s'.owner[c] == Pooled {
        assert c in s'.shared.idle <==> c in s.shared.idle || c == p.conn;
      }
    }
  }

  lemma StepOwnedOnce(cfg: Config, s: State, t: nat, a: Action)
    requires OwnedOnce(s) && Enabled(s, t, a)
    ensures OwnedOnce(Apply(cfg, s, t, a))
  {
    if a.Connect? {
      ConnectOwnedOnce(cfg, s, t);
    } else if a.Drop? {
      DropOwnedOnce(cfg, s, t);
    } else if a.Pop? && s.shared.idle != [] {
      PopOwnedOnce(cfg, s, t);
    } else {
      QuietOwnedOnce(s, Apply(cfg, s, t, a), t);
    }
  }

  // A connection whose owner and wire a step leaves alone, or whose new wire suits its new owner.
  lemma KeepsClean(s: State, s': State, t: nat)
    requires OwnedOnce(s) && WiresClean(s) && t < |s.borrowers| == |s'.borrowers|
    requires s'.borrowers == s.borrowers[t := s'.borrowers[t]]
    requires forall c :: c in s'.owner && c in s'.wires ==>
               || WireOk(s'.owner[c], s'.borrowers, s'.wires[c])
               || (&& c in s.owner && c in s.wires
                   && s'.owner[c] == s.owner[c] != Borrower(t) && s'.wires[c] == s.wires[c])
    ensures WiresClean(s')
  {
    forall c | c in s'.owner && c in s'.wires ensures WireOk(s'.owner[c], s'.borrowers, s'.wires[c]) {
      if c in s.owner && c in s.wires && s'.owner[c] == s.owner[c] != Borrower(t) && s'.wires[c] == s.wires[c] {
        assert WireOk(s.owner[c], s.borrowers, s.wires[c]);
      }
    }
  }

  lemma ReceiveCleans(s: State, t: nat, reply: RespValue)
    requires OwnedOnce(s) && WiresClean(s) && Enabled(s, t, Receive(reply)) && s.borrowers[t].valid
    ensures ReadOne(s.wires[s.borrowers[t].conn], reply) == Some(CLEAN)
  {
    var c := s.borrowers[t].conn;
    assert ConnOf(s.borrowers[t]) == Some(c) && s.owner[c] == Borrower(t);
    assert WireOk(s.owner[c], s.borrowers, s.wires[c]);
    assert [] + Print(reply) == Print(reply) + [];
    PrintedReadsBack(reply, []);
  }

  lemma OwnWire(s: State, t: nat)
    requires OwnedOnce(s) && WiresClean(s) && t < |s.borrowers| && ConnOf(s.borrowers[t]).Some?
    ensures var c := s.borrowers[t].conn;
            c in s.owner && s.owner[c] == Borrower(t) && c in s.wires && WireOk(Borrower(t), s.borrowers, s.wires[c])
    ensures forall c :: c in s.owner && s.owner[c] == Borrower(t) ==> c == s.borrowers[t].conn
  {
    assert ConnOf(s.borrowers[t]) == Some(s.borrowers[t].conn);
  }

  lemma TalkWiresClean(cfg: Config, s: State, t: nat, a: Action)
    requires OwnedOnce(s) && WiresClean(s) && Enabled(s, t, a)
    requires a.Send? || a.Receive? || a.Break?
    ensures WiresClean(Apply(cfg, s, t, a))
  {
    OwnWire(s, t);
    if a.Receive? && s.borrowers[t].valid {
      ReceiveCleans(s, t, a.reply);
    }
    KeepsClean(s, Apply(cfg, s, t, a), t);
  }

  lemma StepWiresClean(cfg: Config, s: State, t: nat, a: Action)
    requires OwnedOnce(s) && WiresClean(s) && Enabled(s, t, a)
    ensures WiresClean(Apply(cfg, s, t, a))
  {
    if a.Send? || a.Receive? || a.Break? {
      TalkWiresClean(cfg, s, t, a);
    } else {
      if a.Drop? {
        OwnWire(s, t);
      }
      if a.Pop? && s.shared.idle != [] {
        assert s.shared.idle[0] in s.shared.idle;
        assert WireOk(s.owner[s.shared.idle[0]], s.borrowers, s.wires[s.shared.idle[0]]);
      }
      KeepsClean(s, Apply(cfg, s, t, a), t);
    }
  }

  lemma StepInv(cfg: Config, s: State, t: nat, a: Action)
    requires Inv(cfg, s) && Enabled(s, t, a)
    ensures Inv(cfg, Apply(cfg, s, t, a))
  {
    StepCounted(cfg, s, t, a);
    StepOwnedOnce(cfg, s, t, a);
    StepWiresClean(cfg, s, t, a);
  }

  // ---------------------------------------------------------------------------------------
  // Runs of any number of borrowers.

  datatype Turn = Turn(borrower: nat, action: Action)

  ghost predicate Initial(s: State) {
    && s.shared == Shared([], 0) && s.owner == map[]
    && forall t :: 0 <= t < |s.borrowers| ==> s.borrowers[t] == Away
  }

  ghost predicate Run(cfg: Config, states: seq<State>, turns: seq<Turn>) {
    && |states| == |turns| + 1
    && Initial(states[0])
    && forall i :: 0 <= i < |turns| ==>
         && Enabled(states[i], turns[i].borrower, turns[i].action)
         && states[i + 1] == Apply(cfg, states[i], turns[i].borrower, turns[i].action)
  }

  lemma {:induction false} RunInv(cfg: Config, states: seq<State>, turns: seq<Turn>, i: nat)
    requires Run(cfg, states, turns) && i < |states|
    ensures Inv(cfg, states[i])
  {
    if i == 0 {
      SumByZero(Slot, states[0].borrowers);
    } else {
      RunInv(cfg, states, turns, i - 1);
      StepInv(cfg, states[i - 1], turns[i - 1].borrower, turns[i - 1].action);
    }
  }

  // In every state of every run: `total` counts the idle connections and the slots borrowers hold, both
  // limits are kept, no two holders share a connection and none holds a pooled one, the idle queue has
  // no repeats, and every idle connection is clean: nothing unread on it, nothing unanswered.
  lemma PoolSafe(cfg: Config, states: seq<State>, turns: seq<Turn>, i: nat)
    requires Run(cfg, states, turns) && i < |states|
    ensures var s := states[i];
            && s.shared.total == |s.shared.idle| + Slots(s.borrowers)
            && s.shared.total <= cfg.maxTotal && |s.shared.idle| <= cfg.maxIdle
            && NoRepeats(s.shared.idle)
            && (forall c :: c in s.shared.idle ==> c in s.wires && s.wires[c] == CLEAN)
    ensures var s := states[i];
            forall t, u :: 0 <= t < |s.borrowers| && 0 <= u < |s.borrowers| && ConnOf(s.borrowers[t]).Some? ==>
              && ConnOf(s.borrowers[t]).value !in s.shared.idle
              && (t != u ==> ConnOf(s.borrowers[t]) != ConnOf(s.borrowers[u]))
  {
    RunInv(cfg, states, turns, i);
    var s := states[i];
    forall c | c in s.shared.idle ensures c in s.wires && s.wires[c] == CLEAN {
      assert WireOk(s.owner[c], s.borrowers, s.wires[c]);
    }
  }

  // In every run release_slot, and return_connection when it does not keep the connection, take exactly
  // one off `total`; a connection that is kept leaves it alone.
  lemma RunNeverSaturates(cfg: Config, states: seq<State>, turns: seq<Turn>, i: nat)
    requires Run(cfg, states, turns) && i < |turns| && (turns[i].action.GiveBack? || turns[i].action.Drop?)
    ensures var kept := |states[i + 1].shared.idle| > |states[i].shared.idle|;
            && (kept ==> turns[i].action.Drop? && states[i].borrowers[turns[i].borrower].valid)
            && states[i + 1].shared.total == states[i].shared.total - (if kept then 0 else 1)
  {
    RunInv(cfg, states, turns, i);
    NeverSaturates(cfg, states[i], turns[i].borrower, turns[i].action);
  }

  // The failed look at the idle queue that put a borrower where it is.
  lemma {:induction false} MissedSince(cfg: Config, states: seq<State>, turns: seq<Turn>, j: nat, t: nat)
    returns (i: nat)
    requires Run(cfg, states, turns) && j < |states| && t < |states[j].borrowers| && states[j].borrowers[t].Missed?
    ensures i < j && turns[i] == Turn(t, Pop) && states[i].shared.idle == []
    ensures forall k :: i < k <= j ==> t < |states[k].borrowers| && states[k].borrowers[t].Missed?
  {
    assert j > 0;
    var before, turn := states[j - 1], turns[j - 1];
    if t < |before.borrowers| && before.borrowers[t].Missed? {
      i := MissedSince(cfg, states, turns, j - 1, t);
    } else {
      i := j - 1;
    }
  }

  // PoolExhausted is reported only when, within the call, the idle queue was empty at one instant and
  // at a later one every connection the limit allows was idle, held or being connected.
  lemma ExhaustedMeansFull(cfg: Config, states: seq<State>, turns: seq<Turn>, j: nat) returns (i: nat)
    requires Run(cfg, states, turns) && j < |turns| && turns[j].action == Reserve
    requires states[j + 1].borrowers[turns[j].borrower].Away?
    ensures i < j && turns[i] == Turn(turns[j].borrower, Pop) && states[i].shared.idle == []
    ensures forall k :: i < k <= j ==>
              turns[j].borrower < |states[k].borrowers| && states[k].borrowers[turns[j].borrower].Missed?
    ensures cfg.maxTotal == states[j].shared.total == |states[j].shared.idle| + Slots(states[j].borrowers)
  {
    RunInv(cfg, states, turns, j);
    i := MissedSince(cfg, states, turns, j, turns[j].borrower);
  }

  // A turn that puts a connection into the queue, or takes one out.
  predicate Keeps(cfg: Config, s: State, turn: Turn) {
    && turn.action.Drop? && turn.borrower < |s.borrowers|
    && s.borrowers[turn.borrower].Using? && s.borrowers[turn.borrower].valid && |s.shared.idle| < cfg.maxIdle
  }

  predicate Takes(s: State, turn: Turn) {
    turn.action.Pop? && s.shared.idle != []
  }

  // Connections put into the queue minus those taken out, by turns `i` to `j` of a run.
  function Balance(cfg: Config, states: seq<State>, turns: seq<Turn>, i: nat, j: nat): int
    requires i <= j <= |turns| < |states|
  {
    if i == j then 0
    else Balance(cfg, states, turns, i, j - 1) + Change(cfg, states[j - 1], turns[j - 1])
  }

  function Change(cfg: Config, s: State, turn: Turn): int {
    (if Keeps(cfg, s, turn) then 1 else 0) - (if Takes(s, turn) then 1 else 0)
  }

  lemma IdleChanges(cfg: Config, s: State, turn: Turn)
    requires Enabled(s, turn.borrower, turn.action)
    ensures |Apply(cfg, s, turn.borrower, turn.action).shared.idle| == |s.shared.idle| + Change(cfg, s, turn)
  {
  }

  predicate IdleFollows(cfg: Config, s: State, turn: Turn, s': State) {
    |s'.shared.idle| == |s.shared.idle| + Change(cfg, s, turn)
  }

  lemma {:induction false} IdleSums(cfg: Config, states: seq<State>, turns: seq<Turn>, i: nat, j: nat)
    requires i <= j <= |turns| < |states|
    requires forall k :: 0 <= k < |turns| ==> IdleFollows(cfg, states[k], turns[k], states[k + 1])
    ensures |states[j].shared.idle| == |states[i].shared.idle| + Balance(cfg, states, turns, i, j)
    decreases j - i
  {
    if i < j {
      IdleSums(cfg, states, turns, i, j - 1);
      assert IdleFollows(cfg, states[j - 1], turns[j - 1], states[j - 1 + 1]);
    }
  }

  // The queue grows by what is returned to it and shrinks by what is taken, and by nothing else.
  lemma IdleBalances(cfg: Config, states: seq<State>, turns: seq<Turn>, i: nat, j: nat)
    requires Run(cfg, states, turns) && i <= j <= |turns|
    ensures |states[j].shared.idle| == |states[i].shared.idle| + Balance(cfg, states, turns, i, j)
  {
    forall k | 0 <= k < |turns| ensures IdleFollows(cfg, states[k], turns[k], states[k + 1]) {
      IdleChanges(cfg, states[k], turns[k]);
    }
    IdleSums(cfg, states, turns, i, j);
  }

  // The connections put into the queue by the first `j` turns of a run, and those taken out, in order.
  function Entered(cfg: Config, states: seq<State>, turns: seq<Turn>, j: nat): seq<ConnId>
    requires j <= |turns| < |states|
  {
    if j == 0 then []
    else
      var s, turn := states[j - 1], turns[j - 1];
      Entered(cfg, states, turns, j - 1) + (if Keeps(cfg, s, turn) then [s.borrowers[turn.borrower].conn] else [])
  }

  function Departed(states: seq<State>, turns: seq<Turn>, j: nat): seq<ConnId>
    requires j <= |turns| < |states|
  {
    if j == 0 then []
    else
      Departed(states, turns, j - 1)
      + (if Takes(states[j - 1], turns[j - 1]) then [states[j - 1].shared.idle[0]] else [])
  }

  // One turn: the queue loses its front, or gains at its back, or neither.
  predicate QueueFollows(cfg: Config, s: State, turn: Turn, s': State) {
    s'.shared.idle == if Takes(s, turn) then s.shared.idle[1..]
                      else if Keeps(cfg, s, turn) then s.shared.idle + [s.borrowers[turn.borrower].conn]
                      else s.shared.idle
  }

  lemma QueueTurn(cfg: Config, s: State, turn: Turn)
    requires Enabled(s, turn.borrower, turn.action)
    ensures QueueFollows(cfg, s, turn, Apply(cfg, s, turn.borrower, turn.action))
  {
  }

  // One turn on sequences: `entered` is `left` and then the queue.
  lemma QueueStep(entered: seq<ConnId>, left: seq<ConnId>, idle: seq<ConnId>, conn: ConnId)
    requires entered == left + idle
    ensures entered + [conn] == left + (idle + [conn])
    ensures idle != [] ==> entered == (left + [idle[0]]) + idle[1..]
  {
  }

  lemma EmptyChanges(s: seq<ConnId>)
    ensures s + [] == s
  {
  }

  lemma {:induction false} QueueSums(cfg: Config, states: seq<State>, turns: seq<Turn>, j: nat)
    requires j <= |turns| < |states| && states[0].shared.idle == []
    requires forall k :: 0 <= k < |turns| ==> QueueFollows(cfg, states[k], turns[k], states[k + 1])
    ensures Entered(cfg, states, turns, j) == Departed(states, turns, j) + states[j].shared.idle
  {
    if j > 0 {
      QueueSums(cfg, states, turns, j - 1);
      var s, turn := states[j - 1], turns[j - 1];
      var entered, left := Entered(cfg, states, turns, j - 1), Departed(states, turns, j - 1);
      assert QueueFollows(cfg, s, turn, states[j - 1 + 1]);
      QueueStep(entered, left, s.shared.idle, if Keeps(cfg, s, turn) then s.borrowers[turn.borrower].conn else 0);
      EmptyChanges(entered);
      EmptyChanges(left);
    }
  }

  // Connections leave the queue in the order they entered it: in every state those that entered are those
  // that left, followed by the queue as it stands.
  lemma QueueIsFifo(cfg: Config, states: seq<State>, turns: seq<Turn>, j: nat)
    requires Run(cfg, states, turns) && j <= |turns|
    ensures Entered(cfg, states, turns, j) == Departed(states, turns, j) + states[j].shared.idle
  {
    forall k | 0 <= k < |turns| ensures QueueFollows(cfg, states[k], turns[k], states[k + 1]) {
      QueueTurn(cfg, states[k], turns[k]);
    }
    QueueSums(cfg, states, turns, j);
  }

  // A refusal meets an idle connection exactly when, since the borrower looked, more connections were
  // returned to the queue than were taken from it.
  lemma RefusedWhileIdleExactly(cfg: Config, states: seq<State>, turns: seq<Turn>, j: nat) returns (i: nat)
    requires Run(cfg, states, turns) && j < |turns| && turns[j].action == Reserve
    requires states[j + 1].borrowers[turns[j].borrower].Away?
    ensures i < j && turns[i] == Turn(turns[j].borrower, Pop) && states[i].shared.idle == []
    ensures forall k :: i < k <= j ==>
              turns[j].borrower < |states[k].borrowers| && states[k].borrowers[turns[j].borrower].Missed?
    ensures states[j].shared.idle != [] <==> Balance(cfg, states, turns, i, j) > 0
  {
    i := ExhaustedMeansFull(cfg, states, turns, j);
    IdleBalances(cfg, states, turns, i, j);
  }

  // It does happen: full does not mean that nothing is idle. With room for one connection, borrower 1 finds the queue
  // empty while borrower 0 holds the connection, borrower 0 returns it, and borrower 1 is refused with
  // the connection idle.
  const REFUSAL_TURNS: seq<Turn> :=
    [Turn(0, Pop), Turn(0, Reserve), Turn(0, Connect), Turn(1, Pop), Turn(0, Drop), Turn(1, Reserve)]

  const REFUSAL_STATES: seq<State> :=
    [State(Shared([], 0), [Away, Away], map[], map[], 0),
     State(Shared([], 0), [Missed, Away], map[], map[], 0),
     State(Shared([], 1), [Connecting, Away], map[], map[], 0),
     State(Shared([], 1), [Using(0, true), Away], map[0 := Borrower(0)], map[0 := CLEAN], 1),
     State(Shared([], 1), [Using(0, true), Missed], map[0 := Borrower(0)], map[0 := CLEAN], 1),
     State(Shared([0], 1), [Away, Missed], map[0 := Pooled], map[0 := CLEAN], 1),
     State(Shared([0], 1), [Away, Away], map[0 := Pooled], map[0 := CLEAN], 1)]

  ghost predicate RefusalStep(i: nat)
    requires i < 6
  {
    var s, turn := REFUSAL_STATES[i], REFUSAL_TURNS[i];
    && Enabled(s, turn.borrower, turn.action)
    && REFUSAL_STATES[i + 1] == Apply(Config(1, 1), s, turn.borrower, turn.action)
  }

  lemma RefusalBegins()
    ensures RefusalStep(0) && RefusalStep(1) && RefusalStep(2)
  {
  }

  lemma RefusalEnds()
    ensures RefusalStep(3) && RefusalStep(4) && RefusalStep(5)
  {
  }

  lemma RefusedWhileIdle()
    ensures Run(Config(1, 1), REFUSAL_STATES, REFUSAL_TURNS) && REFUSAL_TURNS[5] == Turn(1, Reserve)
    ensures REFUSAL_STATES[5].borrowers[1].Missed? && REFUSAL_STATES[6].borrowers[1].Away?
    ensures REFUSAL_STATES[5].shared.idle == REFUSAL_STATES[6].shared.idle == [0]
  {
    RefusalBegins();
    RefusalEnds();
    forall i | 0 <= i < 6 ensures RefusalStep(i) {
      assert i == 0 || i == 1 || i == 2 || i == 3 || i == 4 || i == 5;
    }
  }

  // ---------------------------------------------------------------------------------------
  // The code.

  datatype Acquired = Granted(conn: ConnId) | PoolExhausted | ConnectError

  class ConnectionPool {
    const cfg: Config
    var idle: seq<ConnId>
    var total: nat

    ghost function View(): Shared
      reads this
    {
      Shared(idle, total)
    }

    constructor (cfg: Config)
      ensures View() == Shared([], 0) && this.cfg == cfg
    {
      this.cfg := cfg;
      idle := [];
      total := 0;
    }

    method PopIdleConnection() returns (r: Option<ConnId>)
      modifies this
      ensures View() == PopIdle(old(View())).0 && r == PopIdle(old(View())).1
    {
      if |idle| == 0 {
        return None;
      }
      r := Some(idle[0]);
      idle := idle[1..];
    }

    method Reserve() returns (ok: bool)
      modifies this
      ensures View() == TryReserve(cfg, old(View())).0 && ok == TryReserve(cfg, old(View())).1
    {
      if total >= cfg.maxTotal {
        return false;
      }
      total := total + 1;
      ok := true;
    }

    method Release()
      modifies this
      ensures View() == ReleaseSlot(old(View()))
    {
      total := SaturatingSub1(total);
    }

    method Return(conn: ConnId)
      modifies this
      ensures View() == ReturnConnection(cfg, old(View()), conn)
    {
      if |idle| < cfg.maxIdle {
        idle := idle + [conn];
      } else {
        total := SaturatingSub1(total);
      }
    }

    // acquire, when no other borrower interferes. `connected` is the outcome of connecting.
    method Acquire(connected: Option<ConnId>) returns (r: Acquired)
      modifies this
      ensures old(idle) != [] ==> r == Granted(old(idle)[0]) && View() == Shared(old(idle)[1..], old(total))
      ensures old(idle) == [] && old(total) >= cfg.maxTotal ==> r == PoolExhausted && View() == old(View())
      ensures old(idle) == [] && old(total) < cfg.maxTotal && connected.Some? ==>
                r == Granted(connected.value) && View() == Shared([], old(total) + 1)
      ensures old(idle) == [] && old(total) < cfg.maxTotal && connected.None? ==>
          r == ConnectError && View() == old(View())
    {
      var conn := PopIdleConnection();
      if conn.Some? {
        return Granted(conn.value);
      }
      var ok := Reserve();
      if !ok {
        return PoolExhausted;
      }
      if connected.Some? {
        return Granted(connected.value);
      }
      Release();
      r := ConnectError;
    }
  }

  // The RAII wrapper: `conn` is given up once, `valid` says where to.
  class PooledConnection {
    const pool: ConnectionPool
    var conn: Option<ConnId>
    var valid: bool

    constructor (pool: ConnectionPool, conn: ConnId)
      ensures this.pool == pool && this.conn == Some(conn) && valid
    {
      this.pool := pool;
      this.conn := Some(conn);
      valid := true;
    }

    // exec, with the result of the exchange on the wire.
    method Exec(response: Response) returns (r: Response)
      requires conn.Some?
      modifies this
      ensures r == response && conn == old(conn)
      ensures valid == (old(valid) && response.Reply?)
    {
      r := response;
      if response.ReadFailed? {
        valid := false;
      }
    }

    // drop. A second drop does nothing.
    method Release()
      modifies this, pool
      ensures conn == None && valid == old(valid)
      ensures pool.View() == match old(conn)
                             case None => old(pool.View())
                             case Some(c) => if valid then ReturnConnection(pool.cfg, old(pool.View()), c)
                                             else ReleaseSlot(old(pool.View()))
    {
      if conn.None? {
        return;
      }
      var c := conn.value;
      conn := None;
      if valid {
        pool.Return(c);
      } else {
        pool.Release();
      }
    }
  }
}
