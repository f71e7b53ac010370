/** The event emitter as a state machine over the steps between which its
    goroutines can interleave: any number of threads run SubscribeUser,
    SetBufferSize, Close and EmitUser against one emitter, and consumers receive
    from the subscription channels. Lock holders are explicit. */
module Events {
  import opened Text

  type Tid = nat
  type SubId = nat

  /** What happened to an emission when a subscription had its turn. */
  datatype Outcome = Sent | Full | Closed | Foreign

  /** `held` is the size of the buffer at that moment. */
  datatype Turn = Turn(emission: nat, outcome: Outcome, held: nat)

  /** A subscription. Events are identified by the number of their emission.
      `flag` is the field `closed` and `lock` the holder of `closedMu`; `closer`
      (who set the flag and has yet to close the channel), `received` and
      `turns` only record what happened. */
  datatype Sub = Sub(user: string, capacity: nat, buffer: seq<nat>, flag: bool, lock: Option<Tid>,
                     chanClosed: bool, closer: Option<Tid>, received: seq<nat>, turns: seq<Turn>)

  datatype Emission = Emission(user: string, thread: Tid)

  /** The bodies that run under the emitter's write lock. */
  datatype WriteOp = Subscribe(user: string) | Unsubscribe(sub: SubId) | SetBuffer(size: nat)

  /** Go's RWMutex: a writer first announces itself, which keeps new readers
      out, then waits for the present readers to leave. */
  datatype Phase = Wanting | Pending | Holding

  datatype Pc =
    | Idle
    | Write(op: WriteOp, phase: Phase)
    | CloseLock(sub: SubId)                          // about to lock closedMu
    | CloseTest(sub: SubId)                          // holds closedMu
    | CloseChan(sub: SubId)                          // about to close the channel
    | EmitWant(n: nat)                               // about to take the read lock
    | EmitLoop(n: nat, todo: set<SubId>)             // holds the read lock
    | EmitTurn(n: nat, todo: set<SubId>, sub: SubId) // also holds closedMu

  datatype State = State(
    threads: map<Tid, Pc>,
    writer: Option<Tid>,         // announced or active writer
    readers: set<Tid>,
    table: set<SubId>,           // the keys of the subscriptions map
    subs: map<SubId, Sub>,       // every subscription ever made
    nextId: nat,
    bufferSize: nat,
    emissions: seq<Emission>,
    snapshots: map<nat, set<SubId>>, // the table each emission iterates over
    panicked: bool)

  function PcOf(s: State, t: Tid): Pc { if t in s.threads then s.threads[t] else Idle }

  function Goto(s: State, t: Tid, pc: Pc): State { s.(threads := s.threads[t := pc]) }

  const START := State(map[], None, {}, {}, map[], 0, 100, [], map[], false)

  predicate Matches(sub: Sub, user: string) { sub.user == "" || sub.user == user }

  // ---------------------------------------------------------------------
  // Steps
  // ---------------------------------------------------------------------

  datatype Step =
    | CallWrite(t: Tid, op: WriteOp)
    | CallClose(t: Tid, sub: SubId)
    | CallEmit(t: Tid, user: string)
    | Announce(t: Tid)
    | EnterWrite(t: Tid)
    | WriteAndUnlock(t: Tid)
    | LockFlag(t: Tid)
    | TestFlag(t: Tid)
    | CloseChannel(t: Tid)
    | ReadLock(t: Tid)
    | PickSub(t: Tid, sub: SubId)
    | Deliver(t: Tid, receiverWaiting: bool)
    | ReadUnlock(t: Tid)
    | Receive(sub: SubId)

  predicate Enabled(s: State, step: Step) {
    match step
    case CallWrite(t, op) => PcOf(s, t).Idle? && !op.Unsubscribe?
    case CallClose(t, sub) => PcOf(s, t).Idle? && sub in s.subs
    case CallEmit(t, user) => PcOf(s, t).Idle?
    case Announce(t) => PcOf(s, t).Write? && PcOf(s, t).phase == Wanting && s.writer == None
    case EnterWrite(t) => PcOf(s, t).Write? && PcOf(s, t).phase == Pending && s.readers == {}
    case WriteAndUnlock(t) => PcOf(s, t).Write? && PcOf(s, t).phase == Holding
    case LockFlag(t) => PcOf(s, t).CloseLock? && PcOf(s, t).sub in s.subs && s.subs[PcOf(s, t).sub].lock == None
    case TestFlag(t) => PcOf(s, t).CloseTest? && PcOf(s, t).sub in s.subs
    case CloseChannel(t) => PcOf(s, t).CloseChan? && PcOf(s, t).sub in s.subs
    case ReadLock(t) => PcOf(s, t).EmitWant? && s.writer == None
    case PickSub(t, sub) =>
      PcOf(s, t).EmitLoop? && sub in PcOf(s, t).todo && sub in s.subs && s.subs[sub].lock == None
    case Deliver(t, waiting) =>
      && PcOf(s, t).EmitTurn? && PcOf(s, t).sub in s.subs && PcOf(s, t).n < |s.emissions|
      && (waiting ==> s.subs[PcOf(s, t).sub].buffer == [])
    case ReadUnlock(t) => PcOf(s, t).EmitLoop? && PcOf(s, t).todo == {}
    case Receive(sub) => sub in s.subs && s.subs[sub].buffer != []
  }

  function Next(s: State, step: Step): State
    requires Enabled(s, step)
  {
    match step
    case CallWrite(t, op) => Goto(s, t, Write(op, Wanting))
    case CallClose(t, sub) => Goto(s, t, CloseLock(sub))
    case CallEmit(t, user) => Goto(s.(emissions := s.emissions + [Emission(user, t)]), t, EmitWant(|s.emissions|))
    case Announce(t) => Goto(s.(writer := Some(t)), t, Write(PcOf(s, t).op, Pending))
    case EnterWrite(t) => Goto(s, t, Write(PcOf(s, t).op, Holding))
    case WriteAndUnlock(t) => Perform(s.(writer := None), t, PcOf(s, t).op)
    case LockFlag(t) =>
      var sub := PcOf(s, t).sub;
      Goto(SetSub(s, sub, s.subs[sub].(lock := Some(t))), t, CloseTest(sub))
    case TestFlag(t) =>
      var sub := PcOf(s, t).sub;
      if s.subs[sub].flag then Goto(SetSub(s, sub, s.subs[sub].(lock := None)), t, Idle)
      else
        Goto(SetSub(s, sub, s.subs[sub].(lock := None, flag := true, closer := Some(t))), t,
             Write(Unsubscribe(sub), Wanting))
    case CloseChannel(t) =>
      var sub := PcOf(s, t).sub;
      var after := SetSub(s, sub, s.subs[sub].(chanClosed := true, closer := None));
      Goto(after.(panicked := s.panicked || s.subs[sub].chanClosed), t, Idle)
    case ReadLock(t) =>
      var n := PcOf(s, t).n;
      Goto(s.(readers := s.readers + {t}, snapshots := s.snapshots[n := s.table]), t, EmitLoop(n, s.table))
    case PickSub(t, sub) =>
      Goto(SetSub(s, sub, s.subs[sub].(lock := Some(t))), t, EmitTurn(PcOf(s, t).n, PcOf(s, t).todo, sub))
    case Deliver(t, waiting) =>
      var pc := PcOf(s, t);
      var sub := s.subs[pc.sub];
      var outcome := TakeTurn(sub, s.emissions[pc.n].user, waiting);
      Goto(SetSub(s, pc.sub, Served(sub, pc.n, outcome, waiting).(lock := None))
             .(panicked := s.panicked || (outcome in {Sent, Full} && sub.chanClosed)),
           t, EmitLoop(pc.n, pc.todo - {pc.sub}))
    case ReadUnlock(t) => Goto(s.(readers := s.readers - {t}), t, Idle)
    case Receive(sub) =>
      var c := s.subs[sub];
      SetSub(s, sub, c.(buffer := c.buffer[1..], received := c.received + [c.buffer[0]]))
  }

  function SetSub(s: State, sub: SubId, value: Sub): State { s.(subs := s.subs[sub := value]) }

  function Perform(s: State, t: Tid, op: WriteOp): State {
    match op
    case Subscribe(user) =>
      var id := s.nextId + 1;
      Goto(s.(nextId := id, table := s.table + {id},
              subs := s.subs[id := Sub(user, s.bufferSize, [], false, None, false, None, [], [])]), t, Idle)
    case Unsubscribe(sub) => Goto(s.(table := s.table - {sub}), t, CloseChan(sub))
    case SetBuffer(size) => Goto(s.(bufferSize := size), t, Idle)
  }

  /** A non-blocking send: it succeeds if a receiver waits or the buffer has
      room. */
  function TakeTurn(sub: Sub, user: string, waiting: bool): Outcome {
    if sub.flag then Closed
    else if !Matches(sub, user) then Foreign
    else if waiting || |sub.buffer| < sub.capacity then Sent
    else Full
  }

  function Served(sub: Sub, n: nat, outcome: Outcome, waiting: bool): Sub {
    var after := sub.(turns := sub.turns + [Turn(n, outcome, |sub.buffer|)]);
    if outcome != Sent then after
    else if waiting then after.(received := sub.received + [n])
    else after.(buffer := sub.buffer + [n])
  }

  // ---------------------------------------------------------------------
  // Runs
  // ---------------------------------------------------------------------

  ghost predicate Runs(s: State, steps: seq<Step>)
    decreases |steps|
  {
    steps == [] || (Enabled(s, steps[0]) && Runs(Next(s, steps[0]), steps[1..]))
  }

  ghost function After(s: State, steps: seq<Step>): State
    requires Runs(s, steps)
    decreases |steps|
  {
    if steps == [] then s else After(Next(s, steps[0]), steps[1..])
  }

  // ---------------------------------------------------------------------
  // The invariant
  // ---------------------------------------------------------------------

  predicate Reading(pc: Pc) { pc.EmitLoop? || pc.EmitTurn? }

  predicate Writing(pc: Pc) { pc.Write? && pc.phase != Wanting }

  /** The thread that set the flag of `sub` and has not closed its channel yet. */
  predicate Closer(pc: Pc, sub: SubId) {
    pc == CloseChan(sub) || (pc.Write? && pc.op == Unsubscribe(sub))
  }

  predicate Locks(pc: Pc, sub: SubId) { (pc.CloseTest? || pc.EmitTurn?) && pc.sub == sub }

  /** The locks exclude as locks should. */
  ghost predicate LockInv(s: State) {
    && (forall t: Tid :: t in s.readers <==> Reading(PcOf(s, t)))
    && (forall t: Tid :: Writing(PcOf(s, t)) <==> s.writer == Some(t))
    && (forall t: Tid :: PcOf(s, t).Write? && PcOf(s, t).phase == Holding ==> s.readers == {})
    && (forall c: SubId, t: Tid :: c in s.subs ==> (s.subs[c].lock == Some(t) <==> Locks(PcOf(s, t), c)))
  }

  /** Everything that is referred to exists. */
  ghost predicate RefInv(s: State) {
    && (forall c: SubId :: c in s.subs ==> c <= s.nextId)
    && s.table <= s.subs.Keys
    && (forall t: Tid, c: SubId ::
      Closer(PcOf(s, t), c) || Locks(PcOf(s, t), c) || PcOf(s, t) == CloseLock(c) ==> c in s.subs)
    && (forall t: Tid :: Reading(PcOf(s, t)) ==> PcOf(s, t).todo <= s.subs.Keys)
    && (forall t: Tid :: PcOf(s, t).EmitTurn? ==> PcOf(s, t).sub in PcOf(s, t).todo)
  }

  /** A channel is closed once, by the thread that set the flag, after the
      subscription left the table. */
  ghost predicate CloseInv(s: State) {
    && !s.panicked
    && (forall c: SubId, t: Tid :: c in s.subs ==> (s.subs[c].closer == Some(t) <==> Closer(PcOf(s, t), c)))
    && (forall c: SubId :: c in s.subs && s.subs[c].closer.Some? ==> s.subs[c].flag && !s.subs[c].chanClosed)
    && (forall c: SubId :: c in s.subs && s.subs[c].chanClosed ==> s.subs[c].flag && c !in s.table)
    && (forall t: Tid, c: SubId :: PcOf(s, t) == CloseChan(c) ==> c !in s.table)
  }

  function SentOf(turns: seq<Turn>): seq<nat> {
    if turns == [] then []
    else SentOf(turns[..|turns| - 1])
         + if turns[|turns| - 1].outcome == Sent then [turns[|turns| - 1].emission] else []
  }

  function Count(turns: seq<Turn>, n: nat): nat {
    if turns == [] then 0
    else Count(turns[..|turns| - 1], n) + if turns[|turns| - 1].emission == n then 1 else 0
  }

  /** Why a turn ended as it did. */
  ghost predicate TurnOk(sub: Sub, emissions: seq<Emission>, turn: Turn) {
    turn.emission < |emissions| &&
    var matching := Matches(sub, emissions[turn.emission].user);
    match turn.outcome
    case Sent => matching
    case Full => matching && turn.held == sub.capacity
    case Foreign => !matching
    case Closed => sub.flag
  }

  /** What a subscription has got and still holds is what was sent to it, in
      the order of its turns; the buffer keeps its size; and every turn has its
      reason. */
  ghost predicate StreamOk(sub: Sub, emissions: seq<Emission>) {
    && sub.received + sub.buffer == SentOf(sub.turns)
    && |sub.buffer| <= sub.capacity
    && forall i :: 0 <= i < |sub.turns| ==> TurnOk(sub, emissions, sub.turns[i])
  }

  ghost predicate StreamInv(s: State) {
    forall c: SubId :: c in s.subs ==> StreamOk(s.subs[c], s.emissions)
  }

  /** What a thread still has to do for an emission. */
  datatype Task = NoTask | Waiting(n: nat) | Running(n: nat, todo: set<SubId>)

  function TaskOf(pc: Pc): Task {
    match pc
    case EmitWant(n) => Waiting(n)
    case EmitLoop(n, todo) => Running(n, todo)
    case EmitTurn(n, todo, _) => Running(n, todo)
    case _ => NoTask
  }

  function TaskAt(s: State, t: Tid): Task { TaskOf(PcOf(s, t)) }

  /** An emission belongs to the thread that runs it and to its snapshot. */
  ghost predicate TaskInv(s: State) {
    && (forall t: Tid :: TaskAt(s, t) != NoTask ==>
      TaskAt(s, t).n < |s.emissions| && s.emissions[TaskAt(s, t).n].thread == t)
    && (forall n: nat :: n in s.snapshots ==> n < |s.emissions| && s.snapshots[n] <= s.subs.Keys)
    && (forall t: Tid :: TaskAt(s, t).Waiting? ==> TaskAt(s, t).n !in s.snapshots)
    && (forall t: Tid :: TaskAt(s, t).Running? ==>
          TaskAt(s, t).n in s.snapshots && TaskAt(s, t).todo <= s.snapshots[TaskAt(s, t).n])
  }

  /** The turns of emission `n`: at most one for each subscription of its
      snapshot, none for others; a running emission has served exactly the
      subscriptions that it has nothing left to do for. */
  ghost predicate CountInv(s: State) {
    && (forall n: nat, c: SubId :: c in s.subs ==> CountOk(s, n, c))
    && (forall t: Tid, c: SubId :: TaskAt(s, t).Running? && c in s.subs ==> ServedOk(s, TaskAt(s, t), c))
  }

  ghost predicate TurnInv(s: State) { TaskInv(s) && CountInv(s) }

  ghost predicate CountOk(s: State, n: nat, c: SubId)
    requires c in s.subs
  {
    Count(s.subs[c].turns, n) <= if n in s.snapshots && c in s.snapshots[n] then 1 else 0
  }

  ghost predicate ServedOk(s: State, task: Task, c: SubId)
    requires c in s.subs && task.Running?
  {
    task.n in s.snapshots && c in s.snapshots[task.n] ==>
      Count(s.subs[c].turns, task.n) == if c in task.todo then 0 else 1
  }

  /** Whether the thread of emission `n` is still in its loop. */
  predicate InLoop(s: State, n: nat) {
    n < |s.emissions| &&
    var task := TaskAt(s, s.emissions[n].thread);
    task.Running? && task.n == n
  }

  ghost predicate DoneOk(s: State, n: nat, c: SubId) {
    n in s.snapshots && c in s.snapshots[n] && !InLoop(s, n) ==> c in s.subs && Count(s.subs[c].turns, n) == 1
  }

  /** An emission that is over has served its whole snapshot. */
  ghost predicate DoneInv(s: State) { forall n: nat, c: SubId :: DoneOk(s, n, c) }

  ghost predicate Inv(s: State) {
    LockInv(s) && RefInv(s) && CloseInv(s) && StreamInv(s) && TurnInv(s) && DoneInv(s)
  }

  // ---------------------------------------------------------------------
  // Every step keeps it
  // ---------------------------------------------------------------------

  predicate Acts(step: Step, t: Tid) { !step.Receive? && step.t == t }

  lemma Frame(s: State, step: Step)
    requires Enabled(s, step)
    ensures forall u: Tid :: !Acts(step, u) ==> PcOf(Next(s, step), u) == PcOf(s, u)
  {
  }

  lemma TaskFrame(s: State, step: Step)
    requires Enabled(s, step)
    ensures forall u: Tid :: !Acts(step, u) ==> TaskAt(Next(s, step), u) == TaskAt(s, u)
  {
    Frame(s, step);
  }

  lemma CallWriteKeepsLocks(s: State, step: Step)
    requires step.CallWrite? && Enabled(s, step) && LockInv(s) && RefInv(s)
    ensures LockInv(Next(s, step)) && RefInv(Next(s, step))
  {
    Frame(s, step);
  }

  lemma CallWriteKeepsChannels(s: State, step: Step)
    requires step.CallWrite? && Enabled(s, step) && LockInv(s) && RefInv(s) && CloseInv(s)
    ensures CloseInv(Next(s, step))
  {
    Frame(s, step);
  }

  lemma CallWriteKeepsSafety(s: State, step: Step)
    requires step.CallWrite? && Enabled(s, step) && LockInv(s) && RefInv(s) && CloseInv(s)
    ensures LockInv(Next(s, step)) && RefInv(Next(s, step)) && CloseInv(Next(s, step))
  {
    hide Next, Enabled, LockInv, RefInv, CloseInv;
    CallWriteKeepsLocks(s, step);
    CallWriteKeepsChannels(s, step);
  }

  lemma CallCloseKeepsLocks(s: State, step: Step)
    requires step.CallClose? && Enabled(s, step) && LockInv(s) && RefInv(s)
    ensures LockInv(Next(s, step)) && RefInv(Next(s, step))
  {
    Frame(s, step);
  }

  lemma CallCloseKeepsChannels(s: State, step: Step)
    requires step.CallClose? && Enabled(s, step) && LockInv(s) && RefInv(s) && CloseInv(s)
    ensures CloseInv(Next(s, step))
  {
    Frame(s, step);
  }

  lemma CallEmitKeepsLocks(s: State, step: Step)
    requires step.CallEmit? && Enabled(s, step) && LockInv(s) && RefInv(s)
    ensures LockInv(Next(s, step)) && RefInv(Next(s, step))
  {
    Frame(s, step);
  }

  lemma CallEmitKeepsChannels(s: State, step: Step)
    requires step.CallEmit? && Enabled(s, step) && LockInv(s) && RefInv(s) && CloseInv(s)
    ensures CloseInv(Next(s, step))
  {
    Frame(s, step);
  }

  lemma CallEmitKeepsSafety(s: State, step: Step)
    requires step.CallEmit? && Enabled(s, step) && LockInv(s) && RefInv(s) && CloseInv(s)
    ensures LockInv(Next(s, step)) && RefInv(Next(s, step)) && CloseInv(Next(s, step))
  {
    hide Next, Enabled, LockInv, RefInv, CloseInv;
    CallEmitKeepsLocks(s, step);
    CallEmitKeepsChannels(s, step);
  }

  lemma AnnounceKeepsLocks(s: State, step: Step)
    requires step.Announce? && Enabled(s, step) && LockInv(s) && RefInv(s)
    ensures LockInv(Next(s, step)) && RefInv(Next(s, step))
  {
    Frame(s, step);
  }

  lemma AnnounceKeepsChannels(s: State, step: Step)
    requires step.Announce? && Enabled(s, step) && LockInv(s) && RefInv(s) && CloseInv(s)
    ensures CloseInv(Next(s, step))
  {
    Frame(s, step);
  }

  lemma AnnounceKeepsSafety(s: State, step: Step)
    requires step.Announce? && Enabled(s, step) && LockInv(s) && RefInv(s) && CloseInv(s)
    ensures LockInv(Next(s, step)) && RefInv(Next(s, step)) && CloseInv(Next(s, step))
  {
    hide Next, Enabled, LockInv, RefInv, CloseInv;
    AnnounceKeepsLocks(s, step);
    AnnounceKeepsChannels(s, step);
  }

  lemma EnterWriteKeepsLocks(s: State, step: Step)
    requires step.EnterWrite? && Enabled(s, step) && LockInv(s) && RefInv(s)
    ensures LockInv(Next(s, step)) && RefInv(Next(s, step))
  {
    Frame(s, step);
  }

  lemma EnterWriteKeepsChannels(s: State, step: Step)
    requires step.EnterWrite? && Enabled(s, step) && LockInv(s) && RefInv(s) && CloseInv(s)
    ensures CloseInv(Next(s, step))
  {
    Frame(s, step);
  }

  lemma EnterWriteKeepsSafety(s: State, step: Step)
    requires step.EnterWrite? && Enabled(s, step) && LockInv(s) && RefInv(s) && CloseInv(s)
    ensures LockInv(Next(s, step)) && RefInv(Next(s, step)) && CloseInv(Next(s, step))
  {
    hide Next, Enabled, LockInv, RefInv, CloseInv;
    EnterWriteKeepsLocks(s, step);
    EnterWriteKeepsChannels(s, step);
  }

  lemma LockFlagKeepsLocks(s: State, step: Step)
    requires step.LockFlag? && Enabled(s, step) && LockInv(s) && RefInv(s)
    ensures LockInv(Next(s, step)) && RefInv(Next(s, step))
  {
    Frame(s, step);
  }

  lemma LockFlagKeepsChannels(s: State, step: Step)
    requires step.LockFlag? && Enabled(s, step) && LockInv(s) && RefInv(s) && CloseInv(s)
    ensures CloseInv(Next(s, step))
  {
    Frame(s, step);
  }

  lemma TestFlagKeepsLocks(s: State, step: Step)
    requires step.TestFlag? && Enabled(s, step) && LockInv(s) && RefInv(s)
    ensures LockInv(Next(s, step)) && RefInv(Next(s, step))
  {
    if s.subs[PcOf(s, step.t).sub].flag {
      SecondCloseKeepsLocks(s, step);
    } else {
      FirstCloseKeepsLocks(s, step);
    }
  }

  lemma SecondCloseKeepsLocks(s: State, step: Step)
    requires step.TestFlag? && Enabled(s, step) && LockInv(s) && RefInv(s) && s.subs[PcOf(s, step.t).sub].flag
    ensures LockInv(Next(s, step)) && RefInv(Next(s, step))
  {
    Frame(s, step);
  }

  lemma FirstCloseKeepsLocks(s: State, step: Step)
    requires step.TestFlag? && Enabled(s, step) && LockInv(s) && RefInv(s) && !s.subs[PcOf(s, step.t).sub].flag
    ensures LockInv(Next(s, step)) && RefInv(Next(s, step))
  {
    Frame(s, step);
  }

  lemma TestFlagKeepsChannels(s: State, step: Step)
    requires step.TestFlag? && Enabled(s, step) && LockInv(s) && RefInv(s) && CloseInv(s)
    ensures CloseInv(Next(s, step))
  {
    hide LockInv, RefInv;
    FlagHolder(s, step);
    Frame(s, step);
  }

  lemma FlagHolder(s: State, step: Step)
    requires step.TestFlag? && Enabled(s, step) && LockInv(s) && RefInv(s)
    ensures PcOf(s, step.t).sub in s.subs
  {
  }

  lemma CloseChannelKeepsLocks(s: State, step: Step)
    requires step.CloseChannel? && Enabled(s, step) && LockInv(s) && RefInv(s)
    ensures LockInv(Next(s, step)) && RefInv(Next(s, step))
  {
    Frame(s, step);
  }

  lemma CloseChannelKeepsChannels(s: State, step: Step)
    requires step.CloseChannel? && Enabled(s, step) && LockInv(s) && RefInv(s) && CloseInv(s)
    ensures CloseInv(Next(s, step))
  {
    Frame(s, step);
  }

  lemma ReadLockKeepsLocks(s: State, step: Step)
    requires step.ReadLock? && Enabled(s, step) && LockInv(s) && RefInv(s)
    ensures LockInv(Next(s, step)) && RefInv(Next(s, step))
  {
    Frame(s, step);
  }

  lemma ReadLockKeepsChannels(s: State, step: Step)
    requires step.ReadLock? && Enabled(s, step) && LockInv(s) && RefInv(s) && CloseInv(s)
    ensures CloseInv(Next(s, step))
  {
    Frame(s, step);
  }

  lemma ReadLockKeepsSafety(s: State, step: Step)
    requires step.ReadLock? && Enabled(s, step) && LockInv(s) && RefInv(s) && CloseInv(s)
    ensures LockInv(Next(s, step)) && RefInv(Next(s, step)) && CloseInv(Next(s, step))
  {
    hide Next, Enabled, LockInv, RefInv, CloseInv;
    ReadLockKeepsLocks(s, step);
    ReadLockKeepsChannels(s, step);
  }

  lemma PickSubKeepsLocks(s: State, step: Step)
    requires step.PickSub? && Enabled(s, step) && LockInv(s) && RefInv(s)
    ensures LockInv(Next(s, step)) && RefInv(Next(s, step))
  {
    hide LockInv, RefInv, Next, Enabled;
    PickSubKeepsHolders(s, step);
    PickSubKeepsRefs(s, step);
  }

  lemma PickSubKeepsHolders(s: State, step: Step)
    requires step.PickSub? && Enabled(s, step) && LockInv(s) && RefInv(s)
    ensures LockInv(Next(s, step))
  {
    Frame(s, step);
  }

  lemma PickSubKeepsRefs(s: State, step: Step)
    requires step.PickSub? && Enabled(s, step) && LockInv(s) && RefInv(s)
    ensures RefInv(Next(s, step))
  {
    Frame(s, step);
  }

  lemma PickSubKeepsChannels(s: State, step: Step)
    requires step.PickSub? && Enabled(s, step) && LockInv(s) && RefInv(s) && CloseInv(s)
    ensures CloseInv(Next(s, step))
  {
    Frame(s, step);
  }

  lemma DeliverKeepsLocks(s: State, step: Step)
    requires step.Deliver? && Enabled(s, step) && LockInv(s) && RefInv(s)
    ensures LockInv(Next(s, step)) && RefInv(Next(s, step))
  {
    hide LockInv, RefInv, Next, Enabled;
    DeliverKeepsHolders(s, step);
    DeliverKeepsRefs(s, step);
  }

  lemma DeliverKeepsHolders(s: State, step: Step)
    requires step.Deliver? && Enabled(s, step) && LockInv(s) && RefInv(s)
    ensures LockInv(Next(s, step))
  {
    Frame(s, step);
  }

  lemma DeliverKeepsRefs(s: State, step: Step)
    requires step.Deliver? && Enabled(s, step) && LockInv(s) && RefInv(s)
    ensures RefInv(Next(s, step))
  {
    Frame(s, step);
  }

  lemma DeliverKeepsChannels(s: State, step: Step)
    requires step.Deliver? && Enabled(s, step) && LockInv(s) && RefInv(s) && CloseInv(s)
    ensures CloseInv(Next(s, step))
  {
    Frame(s, step);
  }

  lemma ReadUnlockKeepsLocks(s: State, step: Step)
    requires step.ReadUnlock? && Enabled(s, step) && LockInv(s) && RefInv(s)
    ensures LockInv(Next(s, step)) && RefInv(Next(s, step))
  {
    Frame(s, step);
  }

  lemma ReadUnlockKeepsChannels(s: State, step: Step)
    requires step.ReadUnlock? && Enabled(s, step) && LockInv(s) && RefInv(s) && CloseInv(s)
    ensures CloseInv(Next(s, step))
  {
    Frame(s, step);
  }

  lemma ReadUnlockKeepsSafety(s: State, step: Step)
    requires step.ReadUnlock? && Enabled(s, step) && LockInv(s) && RefInv(s) && CloseInv(s)
    ensures LockInv(Next(s, step)) && RefInv(Next(s, step)) && CloseInv(Next(s, step))
  {
    hide Next, Enabled, LockInv, RefInv, CloseInv;
    ReadUnlockKeepsLocks(s, step);
    ReadUnlockKeepsChannels(s, step);
  }

  lemma ReceiveKeepsSafety(s: State, step: Step)
    requires step.Receive? && Enabled(s, step) && LockInv(s) && RefInv(s) && CloseInv(s)
    ensures LockInv(Next(s, step)) && RefInv(Next(s, step)) && CloseInv(Next(s, step))
  {
    Frame(s, step);
  }

  lemma NobodyUsesNewId(s: State, t: Tid)
    requires RefInv(s)
    ensures var id := s.nextId + 1; id !in s.subs && !Locks(PcOf(s, t), id) && !Closer(PcOf(s, t), id)
  {
  }

  lemma SubscribeKeepsLocks(s: State, step: Step)
    requires step.WriteAndUnlock? && Enabled(s, step) && PcOf(s, step.t).op.Subscribe? && LockInv(s) && RefInv(s)
    ensures LockInv(Next(s, step)) && RefInv(Next(s, step))
  {
    Frame(s, step);
    forall t: Tid ensures !Locks(PcOf(s, t), s.nextId + 1) {
      NobodyUsesNewId(s, t);
    }
  }

  lemma SubscribeKeepsChannels(s: State, step: Step)
    requires step.WriteAndUnlock? && Enabled(s, step) && PcOf(s, step.t).op.Subscribe? && LockInv(s)
      && RefInv(s) && CloseInv(s)
    ensures CloseInv(Next(s, step))
  {
    Frame(s, step);
    forall t: Tid ensures !Closer(PcOf(s, t), s.nextId + 1) {
      NobodyUsesNewId(s, t);
    }
  }

  lemma UnsubscribeKeepsLocks(s: State, step: Step)
    requires step.WriteAndUnlock? && PcOf(s, step.t).Write? && PcOf(s, step.t).op.Unsubscribe? && Enabled(s, step)
    requires LockInv(s) && RefInv(s)
    ensures LockInv(Next(s, step)) && RefInv(Next(s, step))
  {
    Frame(s, step);
  }

  lemma UnsubscribeKeepsChannels(s: State, step: Step)
    requires step.WriteAndUnlock? && PcOf(s, step.t).Write? && PcOf(s, step.t).op.Unsubscribe? && Enabled(s, step)
    requires LockInv(s) && RefInv(s) && CloseInv(s)
    ensures CloseInv(Next(s, step))
  {
    Frame(s, step);
  }

  lemma UnsubscribeKeepsSafety(s: State, step: Step)
    requires step.WriteAndUnlock? && PcOf(s, step.t).Write? && PcOf(s, step.t).op.Unsubscribe? && Enabled(s, step)
    requires LockInv(s) && RefInv(s) && CloseInv(s)
    ensures LockInv(Next(s, step)) && RefInv(Next(s, step)) && CloseInv(Next(s, step))
  {
    hide Next, Enabled, LockInv, RefInv, CloseInv;
    UnsubscribeKeepsLocks(s, step);
    UnsubscribeKeepsChannels(s, step);
  }

  lemma SetBufferKeepsLocks(s: State, step: Step)
    requires step.WriteAndUnlock? && PcOf(s, step.t).Write? && PcOf(s, step.t).op.SetBuffer? && Enabled(s, step)
    requires LockInv(s) && RefInv(s)
    ensures LockInv(Next(s, step)) && RefInv(Next(s, step))
  {
    Frame(s, step);
  }

  lemma SetBufferKeepsChannels(s: State, step: Step)
    requires step.WriteAndUnlock? && PcOf(s, step.t).Write? && PcOf(s, step.t).op.SetBuffer? && Enabled(s, step)
    requires LockInv(s) && RefInv(s) && CloseInv(s)
    ensures CloseInv(Next(s, step))
  {
    Frame(s, step);
  }

  lemma SetBufferKeepsSafety(s: State, step: Step)
    requires step.WriteAndUnlock? && PcOf(s, step.t).Write? && PcOf(s, step.t).op.SetBuffer? && Enabled(s, step)
    requires LockInv(s) && RefInv(s) && CloseInv(s)
    ensures LockInv(Next(s, step)) && RefInv(Next(s, step)) && CloseInv(Next(s, step))
  {
    hide Next, Enabled, LockInv, RefInv, CloseInv;
    SetBufferKeepsLocks(s, step);
    SetBufferKeepsChannels(s, step);
  }

  // ---------------------------------------------------------------------
  // The history
  // ---------------------------------------------------------------------

  predicate SameStream(a: Sub, b: Sub) {
    && a.user == b.user && a.capacity == b.capacity && a.buffer == b.buffer && a.received == b.received
      && a.turns == b.turns
    && (a.flag ==> b.flag)
  }

  /** Steps that leave emissions and streams alone. */
  predicate Quiet(s: State, step: Step)
    requires Enabled(s, step)
  {
    match step
    case CallEmit(_, _) => false
    case ReadLock(_) => false
    case Deliver(_, _) => false
    case ReadUnlock(_) => false
    case Receive(_) => false
    case WriteAndUnlock(t) => !PcOf(s, t).op.Subscribe?
    case _ => true
  }

  lemma QuietFrame(s: State, step: Step)
    requires Enabled(s, step) && Quiet(s, step)
    ensures var s' := Next(s, step);
      && s'.emissions == s.emissions && s'.snapshots == s.snapshots && s'.subs.Keys == s.subs.Keys
      && (forall c: SubId :: c in s.subs ==> SameStream(s.subs[c], s'.subs[c]))
      && (forall t: Tid :: TaskAt(s', t) == TaskAt(s, t))
  {
    QuietTasks(s, step);
    hide TaskAt;
  }

  lemma QuietTasks(s: State, step: Step)
    requires Enabled(s, step) && Quiet(s, step)
    ensures forall t: Tid :: TaskAt(Next(s, step), t) == TaskAt(s, t)
  {
    Frame(s, step);
  }

  lemma QuietKeepsStreams(s: State, step: Step)
    requires Enabled(s, step) && Quiet(s, step) && StreamInv(s)
    ensures StreamInv(Next(s, step))
  {
    QuietFrame(s, step);
    hide Next, TaskAt, Enabled, Quiet, StreamOk, SameStream;
    forall c: SubId | c in Next(s, step).subs ensures StreamOk(Next(s, step).subs[c], s.emissions) {
      SameStreamOk(s.subs[c], Next(s, step).subs[c], s.emissions);
    }
  }

  lemma SameStreamOk(a: Sub, b: Sub, emissions: seq<Emission>)
    requires SameStream(a, b) && StreamOk(a, emissions)
    ensures StreamOk(b, emissions)
  {
    hide SentOf;
    forall i | 0 <= i < |b.turns| ensures TurnOk(b, emissions, b.turns[i]) {
      assert TurnOk(a, emissions, a.turns[i]);
    }
  }

  lemma QuietKeepsTurns(s: State, step: Step)
    requires Enabled(s, step) && Quiet(s, step) && TurnInv(s)
    ensures TurnInv(Next(s, step))
  {
    hide Next, TaskAt, Enabled, Quiet, Count;
    QuietFrame(s, step);
    var s' := Next(s, step);
    forall n: nat, c: SubId | c in s'.subs ensures CountOk(s', n, c) {
      assert CountOk(s, n, c);
    }
    forall t: Tid, c: SubId | TaskAt(s', t).Running? && c in s'.subs ensures ServedOk(s', TaskAt(s', t), c) {
      assert ServedOk(s, TaskAt(s, t), c);
    }
  }

  lemma CallEmitKeepsHistory(s: State, step: Step)
    requires step.CallEmit? && Enabled(s, step) && StreamInv(s) && TurnInv(s)
    ensures StreamInv(Next(s, step)) && TurnInv(Next(s, step))
  {
    TaskFrame(s, step);
    var s' := Next(s, step);
    forall n: nat, c: SubId | c in s'.subs ensures CountOk(s', n, c) {
      assert CountOk(s, n, c);
    }
    forall t: Tid, c: SubId | TaskAt(s', t).Running? && c in s'.subs ensures ServedOk(s', TaskAt(s', t), c) {
      assert ServedOk(s, TaskAt(s, t), c);
    }
    forall c: SubId | c in s'.subs ensures StreamOk(s'.subs[c], s'.emissions) {
      assert StreamOk(s.subs[c], s.emissions);
    }
  }

  /** A new subscription has had no turn, and no snapshot holds it. */
  lemma SubscribeKeepsHistory(s: State, step: Step)
    requires step.WriteAndUnlock? && Enabled(s, step) && PcOf(s, step.t).op.Subscribe?
    requires RefInv(s) && StreamInv(s) && TurnInv(s)
    ensures StreamInv(Next(s, step)) && TurnInv(Next(s, step))
  {
    TaskFrame(s, step);
    var s', id := Next(s, step), s.nextId + 1;
    assert id !in s.subs;
    forall n: nat, c: SubId | c in s'.subs ensures CountOk(s', n, c) {
      if c != id { assert CountOk(s, n, c); }
    }
    forall t: Tid, c: SubId | TaskAt(s', t).Running? && c in s'.subs ensures ServedOk(s', TaskAt(s', t), c) {
      if c != id { assert ServedOk(s, TaskAt(s, t), c); }
    }
  }

  /** The snapshot is the table, all of it still to do. */
  lemma ReadLockKeepsHistory(s: State, step: Step)
    requires step.ReadLock? && Enabled(s, step) && RefInv(s) && StreamInv(s) && TurnInv(s)
    ensures StreamInv(Next(s, step)) && TurnInv(Next(s, step))
  {
    TaskFrame(s, step);
    var s' := Next(s, step);
    assert TaskAt(s, step.t).Waiting?;
    forall n: nat, c: SubId | c in s'.subs ensures CountOk(s', n, c) {
      assert CountOk(s, n, c);
    }
    forall t: Tid, c: SubId | TaskAt(s', t).Running? && c in s'.subs ensures ServedOk(s', TaskAt(s', t), c) {
      if t == step.t { assert CountOk(s, TaskAt(s, t).n, c); } else { assert ServedOk(s, TaskAt(s, t), c); }
    }
  }

  lemma ReadUnlockKeepsHistory(s: State, step: Step)
    requires step.ReadUnlock? && Enabled(s, step) && StreamInv(s) && TurnInv(s)
    ensures StreamInv(Next(s, step)) && TurnInv(Next(s, step))
  {
    TaskFrame(s, step);
    var s' := Next(s, step);
    forall n: nat, c: SubId | c in s'.subs ensures CountOk(s', n, c) {
      assert CountOk(s, n, c);
    }
    forall t: Tid, c: SubId | TaskAt(s', t).Running? && c in s'.subs ensures ServedOk(s', TaskAt(s', t), c) {
      assert ServedOk(s, TaskAt(s, t), c);
    }
  }

  lemma ReceiveKeepsTurns(s: State, step: Step)
    requires step.Receive? && Enabled(s, step) && TurnInv(s)
    ensures TurnInv(Next(s, step))
  {
    TaskFrame(s, step);
    var s' := Next(s, step);
    forall n: nat, c: SubId | c in s'.subs ensures CountOk(s', n, c) {
      assert CountOk(s, n, c);
    }
    forall t: Tid, c: SubId | TaskAt(s', t).Running? && c in s'.subs ensures ServedOk(s', TaskAt(s', t), c) {
      assert ServedOk(s, TaskAt(s, t), c);
    }
  }

  lemma ReceiveKeepsStreams(s: State, step: Step)
    requires step.Receive? && Enabled(s, step) && StreamInv(s)
    ensures StreamInv(Next(s, step))
  {
    hide SentOf;
    var s' := Next(s, step);
    forall c: SubId | c in s'.subs ensures StreamOk(s'.subs[c], s'.emissions) {
      var sub := s.subs[c];
      assert StreamOk(sub, s.emissions);
      if c == step.sub {
        assert sub.received + [sub.buffer[0]] + sub.buffer[1..] == sub.received + sub.buffer;
      }
    }
  }

  lemma TurnAdded(turns: seq<Turn>, turn: Turn, n: nat)
    ensures Count(turns + [turn], n) == Count(turns, n) + if turn.emission == n then 1 else 0
    ensures SentOf(turns + [turn]) == SentOf(turns) + if turn.outcome == Sent then [turn.emission] else []
  {
    assert (turns + [turn])[..|turns|] == turns;
  }

  /** One turn keeps the stream, the buffer bound and the addressee. */
  lemma ServedKeepsStream(sub: Sub, n: nat, emissions: seq<Emission>, waiting: bool)
    requires StreamOk(sub, emissions) && n < |emissions| && (waiting ==> sub.buffer == [])
    ensures var outcome := TakeTurn(sub, emissions[n].user, waiting);
      StreamOk(Served(sub, n, outcome, waiting).(lock := None), emissions)
  {
    var outcome := TakeTurn(sub, emissions[n].user, waiting);
    var sub' := Served(sub, n, outcome, waiting).(lock := None);
    ServedKeepsBuffer(sub, n, emissions, waiting);
    var turn := Turn(n, outcome, |sub.buffer|);
    assert sub'.turns == sub.turns + [turn] && TurnOk(sub, emissions, turn);
    assert sub'.user == sub.user && sub'.capacity == sub.capacity && sub'.flag == sub.flag;
    hide Served, TakeTurn, SentOf;
    TurnsStayOk(sub, sub', emissions, turn);
  }

  lemma TurnsStayOk(sub: Sub, sub': Sub, emissions: seq<Emission>, turn: Turn)
    requires sub'.user == sub.user && sub'.capacity == sub.capacity && sub'.flag == sub.flag
    requires sub'.turns == sub.turns + [turn] && TurnOk(sub, emissions, turn)
    requires forall i :: 0 <= i < |sub.turns| ==> TurnOk(sub, emissions, sub.turns[i])
    ensures forall i :: 0 <= i < |sub'.turns| ==> TurnOk(sub', emissions, sub'.turns[i])
  {
    forall i | 0 <= i < |sub'.turns| ensures TurnOk(sub', emissions, sub'.turns[i]) {
      if i < |sub.turns| { assert TurnOk(sub, emissions, sub.turns[i]); }
    }
  }

  lemma ServedKeepsBuffer(sub: Sub, n: nat, emissions: seq<Emission>, waiting: bool)
    requires StreamOk(sub, emissions) && n < |emissions| && (waiting ==> sub.buffer == [])
    ensures var sub' := Served(sub, n, TakeTurn(sub, emissions[n].user, waiting), waiting);
      sub'.received + sub'.buffer == SentOf(sub'.turns) && |sub'.buffer| <= sub'.capacity
  {
    hide StreamOk;
    BufferOf(sub, emissions);
    var outcome := TakeTurn(sub, emissions[n].user, waiting);
    TurnAdded(sub.turns, Turn(n, outcome, |sub.buffer|), n);
    hide SentOf;
    if outcome == Sent {
      if waiting { assert sub.received + [] == sub.received && sub.received + [n] + [] == sub.received + [n]; }
      else { assert sub.received + (sub.buffer + [n]) == sub.received + sub.buffer + [n]; }
    }
  }

  lemma BufferOf(sub: Sub, emissions: seq<Emission>)
    requires StreamOk(sub, emissions)
    ensures sub.received + sub.buffer == SentOf(sub.turns) && |sub.buffer| <= sub.capacity
  {
  }

  lemma DeliverKeepsStreams(s: State, step: Step)
    requires step.Deliver? && Enabled(s, step) && StreamInv(s)
    ensures StreamInv(Next(s, step))
  {
    var c0 := PcOf(s, step.t).sub;
    ServedKeepsStream(s.subs[c0], PcOf(s, step.t).n, s.emissions, step.receiverWaiting);
    hide StreamOk, Served;
  }

  lemma DeliverFrame(s: State, step: Step)
    requires step.Deliver? && Enabled(s, step)
    ensures var s', pc := Next(s, step), PcOf(s, step.t);
      && s'.emissions == s.emissions && s'.snapshots == s.snapshots && s'.subs.Keys == s.subs.Keys
      && (forall c: SubId :: c in s.subs && c != pc.sub ==> s'.subs[c] == s.subs[c])
      && (forall t: Tid :: t != step.t ==> TaskAt(s', t) == TaskAt(s, t))
      && TaskAt(s, step.t) == Running(pc.n, pc.todo) && TaskAt(s', step.t) == Running(pc.n, pc.todo - {pc.sub})
      && (forall n: nat ::
        Count(s'.subs[pc.sub].turns, n) == Count(s.subs[pc.sub].turns, n) + if n == pc.n then 1 else 0)
  {
    Frame(s, step);
    var s', pc := Next(s, step), PcOf(s, step.t);
    var turn := Turn(pc.n, TakeTurn(s.subs[pc.sub], s.emissions[pc.n].user, step.receiverWaiting),
      |s.subs[pc.sub].buffer|);
    assert s'.subs[pc.sub].turns == s.subs[pc.sub].turns + [turn];
    forall n: nat
      ensures Count(s'.subs[pc.sub].turns, n) == Count(s.subs[pc.sub].turns, n) + if n == pc.n then 1 else 0
    {
      TurnAdded(s.subs[pc.sub].turns, turn, n);
    }
  }

  lemma DeliverKeepsTasks(s: State, step: Step)
    requires step.Deliver? && Enabled(s, step) && TaskInv(s)
    ensures TaskInv(Next(s, step))
  {
    DeliverFrame(s, step);
    hide Next, TaskAt, Count;
  }

  lemma DeliverRefs(s: State, step: Step)
    requires step.Deliver? && Enabled(s, step) && RefInv(s)
    ensures PcOf(s, step.t).sub in PcOf(s, step.t).todo && PcOf(s, step.t).sub in s.subs
  {
  }

  /** The emission being run is counted by its snapshot and has not yet served
      what is left to do. */
  lemma RunningCounts(s: State, t: Tid, c: SubId)
    requires TaskInv(s) && CountInv(s) && TaskAt(s, t).Running? && c in TaskAt(s, t).todo && c in s.subs
    ensures var n := TaskAt(s, t).n; n in s.snapshots && c in s.snapshots[n] && Count(s.subs[c].turns, n) == 0
  {
    hide TaskAt, Count;
    assert ServedOk(s, TaskAt(s, t), c);
  }

  lemma DeliverKeepsCount(s: State, step: Step, n: nat, c: SubId)
    requires step.Deliver? && Enabled(s, step) && RefInv(s) && TaskInv(s) && CountInv(s)
    requires c in Next(s, step).subs
    ensures CountOk(Next(s, step), n, c)
  {
    hide RefInv, Count, TaskInv, Next, TaskAt;
    DeliverRefs(s, step);
    DeliverFrame(s, step);
    hide Enabled, PcOf;
    assert CountOk(s, n, c);
    RunningCounts(s, step.t, PcOf(s, step.t).sub);
    hide CountInv;
  }

  lemma DeliverKeepsCounts(s: State, step: Step)
    requires step.Deliver? && Enabled(s, step) && RefInv(s) && TaskInv(s) && CountInv(s)
    ensures forall n: nat, c: SubId :: c in Next(s, step).subs ==> CountOk(Next(s, step), n, c)
  {
    hide Next, RefInv, TaskInv, CountInv, CountOk, PcOf;
    forall n: nat, c: SubId | c in Next(s, step).subs ensures CountOk(Next(s, step), n, c) {
      DeliverKeepsCount(s, step, n, c);
    }
  }

  lemma DeliverKeepsServed(s: State, step: Step, t: Tid, c: SubId)
    requires step.Deliver? && Enabled(s, step) && RefInv(s) && TaskInv(s) && CountInv(s)
    requires TaskAt(Next(s, step), t).Running? && c in Next(s, step).subs
    ensures ServedOk(Next(s, step), TaskAt(Next(s, step), t), c)
  {
    hide RefInv, Count, Next, TaskAt;
    DeliverRefs(s, step);
    DeliverFrame(s, step);
    hide Enabled, PcOf;
    assert ServedOk(s, TaskAt(s, t), c);
  }

  lemma DeliverKeepsHistory(s: State, step: Step)
    requires step.Deliver? && Enabled(s, step) && Inv(s)
    ensures StreamInv(Next(s, step)) && TurnInv(Next(s, step))
  {
    hide Next, LockInv, RefInv, CloseInv, StreamInv, TaskInv, CountInv, DoneInv;
    DeliverKeepsStreams(s, step);
    DeliverKeepsTasks(s, step);
    DeliverKeepsCounts(s, step);
    forall t: Tid, c: SubId | TaskAt(Next(s, step), t).Running? && c in Next(s, step).subs
      ensures ServedOk(Next(s, step), TaskAt(Next(s, step), t), c)
    {
      DeliverKeepsServed(s, step, t, c);
    }
    CountsMakeInv(Next(s, step));
  }

  lemma CountsMakeInv(s: State)
    requires forall n: nat, c: SubId :: c in s.subs ==> CountOk(s, n, c)
    requires forall t: Tid, c: SubId :: TaskAt(s, t).Running? && c in s.subs ==> ServedOk(s, TaskAt(s, t), c)
    ensures CountInv(s)
  {
  }

  // ---------------------------------------------------------------------
  // Whole runs
  // ---------------------------------------------------------------------

  /** The thread of an emission that is over never takes it up again, and its
      turns stay counted. */
  lemma StepKeepsDone(s: State, step: Step, n: nat, c: SubId)
    requires RefInv(s) && TurnInv(s) && DoneOk(s, n, c) && Enabled(s, step)
    ensures DoneOk(Next(s, step), n, c)
  {
    if Quiet(s, step) {
      QuietFrame(s, step);
      hide Next, TaskAt, Enabled, Quiet, Count, RefInv, TurnInv;
    } else {
      match step
      case CallEmit(t, user) => CallEmitKeepsDone(s, step, n, c);
      case WriteAndUnlock(t) => SubscribeKeepsDone(s, step, n, c);
      case ReadLock(t) => ReadLockKeepsDone(s, step, n, c);
      case Deliver(t, waiting) => DeliverKeepsDone(s, step, n, c);
      case ReadUnlock(t) => ReadUnlockKeepsDone(s, step, n, c);
      case Receive(sub) => ReceiveKeepsDone(s, step, n, c);
    }
  }

  lemma CallEmitKeepsDone(s: State, step: Step, n: nat, c: SubId)
    requires step.CallEmit? && Enabled(s, step) && TaskInv(s) && DoneOk(s, n, c)
    ensures DoneOk(Next(s, step), n, c)
  {
    TaskFrame(s, step);
    hide Count;
  }

  lemma SubscribeKeepsDone(s: State, step: Step, n: nat, c: SubId)
    requires step.WriteAndUnlock? && Enabled(s, step) && PcOf(s, step.t).op.Subscribe?
    requires RefInv(s) && TaskInv(s) && DoneOk(s, n, c)
    ensures DoneOk(Next(s, step), n, c)
  {
    TaskFrame(s, step);
    hide Count;
    assert s.nextId + 1 !in s.subs;
  }

  lemma ReadLockKeepsDone(s: State, step: Step, n: nat, c: SubId)
    requires step.ReadLock? && Enabled(s, step) && TaskInv(s) && DoneOk(s, n, c)
    ensures DoneOk(Next(s, step), n, c)
  {
    TaskFrame(s, step);
    hide Count;
    assert TaskAt(s, step.t) == Waiting(PcOf(s, step.t).n);
  }

  lemma DeliverKeepsDone(s: State, step: Step, n: nat, c: SubId)
    requires step.Deliver? && Enabled(s, step) && TaskInv(s) && DoneOk(s, n, c)
    ensures DoneOk(Next(s, step), n, c)
  {
    DeliverFrame(s, step);
    hide Count, Next, TaskAt;
    assert TaskAt(s, step.t).Running?;
  }

  lemma ReadUnlockKeepsDone(s: State, step: Step, n: nat, c: SubId)
    requires step.ReadUnlock? && Enabled(s, step) && TurnInv(s) && DoneOk(s, n, c)
    ensures DoneOk(Next(s, step), n, c)
  {
    TaskFrame(s, step);
    hide Count;
    if InLoop(s, n) && n in s.snapshots && c in s.snapshots[n] {
      assert ServedOk(s, TaskAt(s, s.emissions[n].thread), c);
    }
  }

  lemma ReceiveKeepsDone(s: State, step: Step, n: nat, c: SubId)
    requires step.Receive? && Enabled(s, step) && DoneOk(s, n, c)
    ensures DoneOk(Next(s, step), n, c)
  {
    TaskFrame(s, step);
    hide Count;
  }

  lemma StepKeepsSafety(s: State, step: Step)
    requires Inv(s) && Enabled(s, step)
    ensures var s' := Next(s, step); LockInv(s') && RefInv(s') && CloseInv(s')
  {
    hide Next, LockInv, RefInv, CloseInv, StreamInv, TurnInv, DoneInv;
    match step
    case CallWrite(t, op) => CallWriteKeepsSafety(s, step);
    case CallClose(t, sub) => CallCloseKeepsLocks(s, step); CallCloseKeepsChannels(s, step);
    case CallEmit(t, user) => CallEmitKeepsSafety(s, step);
    case Announce(t) => AnnounceKeepsSafety(s, step);
    case EnterWrite(t) => EnterWriteKeepsSafety(s, step);
    case WriteAndUnlock(t) =>
      match PcOf(s, t).op {
        case Subscribe(_) => SubscribeKeepsLocks(s, step); SubscribeKeepsChannels(s, step);
        case Unsubscribe(_) => UnsubscribeKeepsSafety(s, step);
        case SetBuffer(_) => SetBufferKeepsSafety(s, step);
      }
    case LockFlag(t) => LockFlagKeepsLocks(s, step); LockFlagKeepsChannels(s, step);
    case TestFlag(t) => TestFlagKeepsLocks(s, step); TestFlagKeepsChannels(s, step);
    case CloseChannel(t) => CloseChannelKeepsLocks(s, step); CloseChannelKeepsChannels(s, step);
    case ReadLock(t) => ReadLockKeepsSafety(s, step);
    case PickSub(t, sub) => PickSubKeepsLocks(s, step); PickSubKeepsChannels(s, step);
    case Deliver(t, waiting) => DeliverKeepsLocks(s, step); DeliverKeepsChannels(s, step);
    case ReadUnlock(t) => ReadUnlockKeepsSafety(s, step);
    case Receive(sub) => ReceiveKeepsSafety(s, step);
  }

  lemma StepKeepsHistory(s: State, step: Step)
    requires Inv(s) && Enabled(s, step)
    ensures StreamInv(Next(s, step)) && TurnInv(Next(s, step)) && DoneInv(Next(s, step))
  {
    hide Next, LockInv, RefInv, CloseInv, StreamInv, TurnInv, DoneOk;
    forall n: nat, c: SubId ensures DoneOk(Next(s, step), n, c) { StepKeepsDone(s, step, n, c); }
    if Quiet(s, step) {
      QuietKeepsStreams(s, step);
      QuietKeepsTurns(s, step);
    } else {
      match step
      case CallEmit(t, user) => CallEmitKeepsHistory(s, step);
      case WriteAndUnlock(t) => SubscribeKeepsHistory(s, step);
      case ReadLock(t) => ReadLockKeepsHistory(s, step);
      case Deliver(t, waiting) => DeliverKeepsHistory(s, step);
      case ReadUnlock(t) => ReadUnlockKeepsHistory(s, step);
      case Receive(sub) => ReceiveKeepsStreams(s, step); ReceiveKeepsTurns(s, step);
    }
  }

  lemma {:induction false} RunKeepsInv(s: State, steps: seq<Step>)
    requires Inv(s) && Runs(s, steps)
    ensures Inv(After(s, steps))
    decreases |steps|
  {
    hide Next, LockInv, RefInv, CloseInv, StreamInv, TurnInv, DoneInv, Enabled;
    if steps != [] {
      StepKeepsSafety(s, steps[0]);
      StepKeepsHistory(s, steps[0]);
      RunKeepsInv(Next(s, steps[0]), steps[1..]);
    }
  }

  lemma StartInv()
    ensures Inv(START)
  {
  }

  /** Whoever is idle may start any call at any time, and whatever is buffered may be
      received. */
  lemma AnybodyMayStart(s: State, t: Tid, user: string, size: nat, c: SubId)
    requires PcOf(s, t).Idle?
    ensures Enabled(s, CallWrite(t, Subscribe(user))) && Enabled(s, CallWrite(t, SetBuffer(size)))
    ensures Enabled(s, CallEmit(t, user)) && (Enabled(s, CallClose(t, c)) <==> c in s.subs)
    ensures c in s.subs && s.subs[c].buffer != [] ==>
      Enabled(s, Receive(c)) && Next(s, Receive(c)).subs[c].received == s.subs[c].received + [s.subs[c].buffer[0]]
  {
  }

  /** In every interleaving nothing is sent on a closed channel, no channel is
      closed twice, and no buffer outgrows the size fixed at subscription. */
  lemma NeverPanics(steps: seq<Step>)
    requires Runs(START, steps)
    ensures var s := After(START, steps);
      && !s.panicked
      && forall c: SubId :: c in s.subs ==> |s.subs[c].buffer| <= s.subs[c].capacity
  {
    StartInv();
    RunKeepsInv(START, steps);
  }

  /** Seen at the steps themselves: whoever is about to close a channel finds it open,
      and whoever is about to send, in a turn that sends or finds the buffer full, too. */
  lemma OnlyOpenChannels(steps: seq<Step>, t: Tid, c: SubId, waiting: bool)
    requires Runs(START, steps) && c in After(START, steps).subs
    ensures var s := After(START, steps);
      && (PcOf(s, t) == CloseChan(c) ==> !s.subs[c].chanClosed)
      && (PcOf(s, t).EmitTurn? && PcOf(s, t).sub == c && PcOf(s, t).n < |s.emissions| ==>
            var outcome := TakeTurn(s.subs[c], s.emissions[PcOf(s, t).n].user, waiting);
            outcome in {Sent, Full} ==> !s.subs[c].chanClosed)
  {
    StartInv();
    RunKeepsInv(START, steps);
    hide Runs, LockInv, RefInv, StreamInv, TurnInv, DoneInv;
    var s := After(START, steps);
    assert Closer(PcOf(s, t), c) ==> s.subs[c].closer == Some(t);
  }

  /** A receiver that waits gets the event at once, whatever the size of the buffer. */
  lemma WaitingReceiverGets(s: State, t: Tid, c: SubId)
    requires Enabled(s, Deliver(t, true)) && PcOf(s, t).sub == c && !s.subs[c].flag
    requires s.subs[c].user == "" || s.subs[c].user == s.emissions[PcOf(s, t).n].user
    ensures Next(s, Deliver(t, true)).subs[c].received == s.subs[c].received + [PcOf(s, t).n]
    ensures Next(s, Deliver(t, true)).subs[c].buffer == s.subs[c].buffer
  {
  }

  predicate Subsequence(a: seq<nat>, b: seq<nat>) {
    a == [] ||
    (b != [] &&
     if a[|a| - 1] == b[|b| - 1] then Subsequence(a[..|a| - 1], b[..|b| - 1]) else Subsequence(a, b[..|b| - 1]))
  }

  function EmissionsOf(turns: seq<Turn>): seq<nat> {
    if turns == [] then [] else EmissionsOf(turns[..|turns| - 1]) + [turns[|turns| - 1].emission]
  }

  lemma {:induction false} Weaken(a: seq<nat>, b: seq<nat>)
    requires a != [] && Subsequence(a, b)
    ensures Subsequence(a[..|a| - 1], b)
    decreases |b|
  {
    var a' := a[..|a| - 1];
    if a' != [] {
      if a[|a| - 1] == b[|b| - 1] {
        if a'[|a'| - 1] == b[|b| - 1] { Weaken(a', b[..|b| - 1]); }
      } else {
        Weaken(a, b[..|b| - 1]);
        if a'[|a'| - 1] == b[|b| - 1] { Weaken(a', b[..|b| - 1]); }
      }
    }
  }

  lemma {:induction false} SentIsSubsequence(turns: seq<Turn>)
    ensures Subsequence(SentOf(turns), EmissionsOf(turns))
  {
    if turns != [] {
      var front := turns[..|turns| - 1];
      SentIsSubsequence(front);
      var a, b, n := SentOf(front), EmissionsOf(front), turns[|turns| - 1].emission;
      assert (b + [n])[..|b|] == b && (a + [n])[..|a|] == a && a + [] == a;
      if turns[|turns| - 1].outcome != Sent && a != [] && a[|a| - 1] == n {
        Weaken(a, b);
      }
    }
  }

  /** For each subscription, received plus buffered events are a subsequence,
      in critical-section order, of the emissions that reached it, all of them
      addressed to its user; and every emission that reached it has at most one
      turn. */
  lemma StreamsAreOrdered(steps: seq<Step>, c: SubId)
    requires Runs(START, steps) && c in After(START, steps).subs
    ensures var s := After(START, steps);
      var sub := s.subs[c];
      && sub.received + sub.buffer == SentOf(sub.turns)
      && Subsequence(sub.received + sub.buffer, EmissionsOf(sub.turns))
      && (forall n: nat :: Count(sub.turns, n) <= 1)
      && forall i :: 0 <= i < |sub.turns| && sub.turns[i].outcome == Sent ==>
           && sub.turns[i].emission < |s.emissions|
           && (sub.user == "" || sub.user == s.emissions[sub.turns[i].emission].user)
  {
    StartInv();
    RunKeepsInv(START, steps);
    var s := After(START, steps);
    SentIsSubsequence(s.subs[c].turns);
    forall n: nat ensures Count(s.subs[c].turns, n) <= 1 {
      assert CountOk(s, n, c);
    }
    assert StreamOk(s.subs[c], s.emissions);
  }

  /** An emission is over when its loop has nothing left to do, from then on. */
  predicate Over(s: State, n: nat) {
    n in s.snapshots && (InLoop(s, n) ==> TaskAt(s, s.emissions[n].thread).todo == {})
  }

  /** An emission that is over has given every subscription of its snapshot exactly
      one turn. */
  lemma EmissionIsComplete(steps: seq<Step>, n: nat, c: SubId)
    requires Runs(START, steps) && Over(After(START, steps), n) && c in After(START, steps).snapshots[n]
    ensures var s := After(START, steps); c in s.subs && Count(s.subs[c].turns, n) == 1
  {
    StartInv();
    RunKeepsInv(START, steps);
    var s := After(START, steps);
    assert DoneOk(s, n, c);
    if InLoop(s, n) {
      assert ServedOk(s, TaskAt(s, s.emissions[n].thread), c);
    }
  }

  lemma {:induction false} TurnFor(turns: seq<Turn>, n: nat) returns (i: nat)
    requires Count(turns, n) > 0
    ensures i < |turns| && turns[i].emission == n
    ensures turns[i].outcome == Sent ==> n in SentOf(turns)
  {
    var last := |turns| - 1;
    if turns[last].emission == n {
      i := last;
    } else {
      i := TurnFor(turns[..last], n);
    }
  }

  /** In every run, a subscription of the snapshot of an emission that is over has
      got the event or holds it, unless it was closed, or the event is not addressed
      to its user, or its buffer was full to capacity at its one turn. */
  lemma MissedOnlyIfFull(steps: seq<Step>, n: nat, c: SubId)
    requires Runs(START, steps) && Over(After(START, steps), n) && c in After(START, steps).snapshots[n]
    ensures var s := After(START, steps);
      && c in s.subs && n < |s.emissions|
      && var sub := s.subs[c];
      && Count(sub.turns, n) == 1
      && (n in sub.received + sub.buffer || (sub.user != "" && sub.user != s.emissions[n].user)
          || exists i :: 0 <= i < |sub.turns| && sub.turns[i].emission == n
               && (sub.turns[i] == Turn(n, Full, sub.capacity) || (sub.turns[i].outcome == Closed && sub.flag)))
  {
    EmissionIsComplete(steps, n, c);
    StartInv();
    RunKeepsInv(START, steps);
    var s := After(START, steps);
    hide Runs, After, LockInv, RefInv, CloseInv, TaskInv, CountInv, DoneInv, Count, SentOf;
    var sub := s.subs[c];
    var i := TurnFor(sub.turns, n);
    assert StreamOk(sub, s.emissions) && TurnOk(sub, s.emissions, sub.turns[i]);
    assert sub.turns[i] == Turn(n, sub.turns[i].outcome, sub.turns[i].held);
  }

  lemma {:induction false} SentHasTurn(turns: seq<Turn>, n: nat) returns (i: nat)
    requires n in SentOf(turns)
    ensures i < |turns| && turns[i].emission == n && turns[i].outcome == Sent
  {
    var last := |turns| - 1;
    if turns[last].outcome == Sent && turns[last].emission == n {
      i := last;
    } else {
      i := SentHasTurn(turns[..last], n);
    }
  }

  /** And nothing else is ever received: what a subscription has got or holds was
      addressed to its user. */
  lemma GotOnlyOwnEvents(steps: seq<Step>, n: nat, c: SubId)
    requires Runs(START, steps) && c in After(START, steps).subs
    requires var sub := After(START, steps).subs[c]; n in sub.received + sub.buffer
    ensures var s := After(START, steps);
      n < |s.emissions| && (s.subs[c].user == "" || s.subs[c].user == s.emissions[n].user)
  {
    StartInv();
    RunKeepsInv(START, steps);
    var s := After(START, steps);
    assert StreamOk(s.subs[c], s.emissions);
    var i := SentHasTurn(s.subs[c].turns, n);
    assert TurnOk(s.subs[c], s.emissions, s.subs[c].turns[i]);
  }

  // ---------------------------------------------------------------------
  // No deadlock
  // ---------------------------------------------------------------------

  /** Steps that a thread inside an operation takes on its own. */
  predicate Progress(step: Step) {
    !step.CallWrite? && !step.CallClose? && !step.CallEmit? && !step.Receive?
  }

  /** A thread that holds no lock at all and waits for a subscription's lock, or
      holds the read lock only, can move once nobody holds `closedMu`. */
  lemma HolderMoves(s: State, t: Tid) returns (step: Step)
    requires Inv(s) && (PcOf(s, t).CloseTest? || PcOf(s, t).EmitTurn?)
    ensures Enabled(s, step) && Progress(step)
  {
    if PcOf(s, t).CloseTest? {
      assert Locks(PcOf(s, t), PcOf(s, t).sub);
      step := TestFlag(t);
    } else {
      assert Locks(PcOf(s, t), PcOf(s, t).sub);
      assert TaskAt(s, t).Running?;
      step := Deliver(t, false);
    }
  }

  lemma FreeOrHeld(s: State, c: SubId) returns (step: Option<Step>)
    requires Inv(s) && c in s.subs
    ensures step.None? ==> s.subs[c].lock == None
    ensures step.Some? ==> Enabled(s, step.value) && Progress(step.value)
  {
    if s.subs[c].lock == None {
      step := None;
    } else {
      var t := s.subs[c].lock.value;
      assert Locks(PcOf(s, t), c);
      var x := HolderMoves(s, t);
      step := Some(x);
    }
  }

  lemma ReaderMoves(s: State, t: Tid) returns (step: Step)
    requires Inv(s) && PcOf(s, t).EmitLoop?
    ensures Enabled(s, step) && Progress(step)
  {
    var todo := PcOf(s, t).todo;
    if todo == {} {
      step := ReadUnlock(t);
    } else {
      var c :| c in todo;
      var other := FreeOrHeld(s, c);
      step := if other.Some? then other.value else PickSub(t, c);
    }
  }

  lemma WriterMoves(s: State, t: Tid) returns (step: Step)
    requires Inv(s) && Writing(PcOf(s, t))
    ensures Enabled(s, step) && Progress(step)
  {
    if PcOf(s, t).phase == Holding {
      step := WriteAndUnlock(t);
    } else if s.readers == {} {
      step := EnterWrite(t);
    } else {
      var r :| r in s.readers;
      assert Reading(PcOf(s, r));
      if PcOf(s, r).EmitLoop? { step := ReaderMoves(s, r); } else { step := HolderMoves(s, r); }
    }
  }

  /** As long as some thread is inside an operation, some thread can move:
      nobody waits for an emitter lock while holding `closedMu`, and `Close`
      lets go of `closedMu` before it asks for the write lock. */
  lemma NoDeadlock(steps: seq<Step>, t: Tid) returns (step: Step)
    requires Runs(START, steps) && !PcOf(After(START, steps), t).Idle?
    ensures Enabled(After(START, steps), step) && Progress(step)
  {
    hide Inv, Next, Enabled, PcOf;
    StartInv();
    RunKeepsInv(START, steps);
    step := SomeoneMoves(After(START, steps), t);
  }

  lemma SomeoneMoves(s: State, t: Tid) returns (step: Step)
    requires Inv(s) && !PcOf(s, t).Idle?
    ensures Enabled(s, step) && Progress(step)
  {
    match PcOf(s, t)
    case Write(op, phase) =>
      if phase != Wanting { step := WriterMoves(s, t); }
      else if s.writer.Some? { assert Writing(PcOf(s, s.writer.value)); step := WriterMoves(s, s.writer.value); }
      else { step := Announce(t); }
    case CloseLock(sub) =>
      assert PcOf(s, t) == CloseLock(sub);
      var other := FreeOrHeld(s, sub);
      step := if other.Some? then other.value else LockFlag(t);
    case CloseTest(sub) => step := HolderMoves(s, t);
    case CloseChan(sub) =>
      assert Closer(PcOf(s, t), sub);
      step := CloseChannel(t);
    case EmitWant(n) =>
      if s.writer.Some? { assert Writing(PcOf(s, s.writer.value)); step := WriterMoves(s, s.writer.value); }
      else { step := ReadLock(t); }
    case EmitLoop(n, todo) => step := ReaderMoves(s, t);
    case EmitTurn(n, todo, sub) => step := HolderMoves(s, t);
  }
}
