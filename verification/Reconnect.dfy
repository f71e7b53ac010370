/** Connecting, disconnecting and reconnecting as a state machine. Any number of
    goroutines run Connect, Disconnect, the client's two callbacks and reconnect
    loops against one connection; every read or write of a shared field is a
    step of its own, and `mu` names the holder of `c.mu`. State and wanted state
    have their own lock in the program, so they may change between any two
    steps. */
module Reconnect {
  import opened Text

  type Tid = nat
  type Chan = nat

  datatype ConnState = Disconnected | Connecting | Connected | Disconnecting

  const MIN_DELAY := 2 // seconds
  const MAX_DELAY := 300

  /** Who called Connect: the user, or a reconnect loop with its delay. */
  datatype Who = User | Loop(delay: nat)

  datatype Pc =
    | Idle
    // Connect
    | ConnectLock(who: Who)
    | ReadState(who: Who)
    | ReadWanted(who: Who)
    | SetConnecting(who: Who)
    | TestStop(who: Who)
    | CloseStop(who: Who)
    | ReplaceStop(who: Who)
    | Dial(who: Who)
    // reconnectLoop
    | LoopRead(delay: nat)
    | LoopWait(delay: nat, stop: Option<Chan>)
    | LoopWanted(delay: nat)
    // Disconnect
    | StopLock
    | StopTest
    | StopClose
    | StopReplace
    | StopState
    | StopQuit
    | StopDone
    | StopUnlock
    // callbacks of the client
    | ConnectedLock
    | ConnectedSet
    | LostSet
    | LostSpawn

  /** `closed` are the closed stop channels among 0..made. The last four fields
      only record what happened: whether Disconnect has returned while nobody
      wanted the connection (until somebody wants it again), and three things
      that must never happen. */
  datatype State = State(
    threads: map<Tid, Pc>,
    mu: Option<Tid>,
    conn: ConnState,
    wanted: bool,
    stop: Option<Chan>,
    made: Chan,
    closed: set<Chan>,
    hasClient: bool,
    quiet: bool,
    closedTwice: bool,
    reentered: bool,
    startedWhileQuiet: bool)

  const START := State(map[], None, Disconnected, true, None, 0, {}, false, false, false, false, false)

  function PcOf(s: State, t: Tid): Pc { if t in s.threads then s.threads[t] else Idle }

  function Goto(s: State, t: Tid, pc: Pc): State { s.(threads := s.threads[t := pc]) }

  /** Connect returns: a loop goes round again on an error, with twice the delay. */
  function Return(who: Who, ok: bool): Pc {
    match who
    case User => Idle
    case Loop(delay) => if ok then Idle else LoopRead(if 2 * delay > MAX_DELAY then MAX_DELAY else 2 * delay)
  }

  // ---------------------------------------------------------------------
  // Steps
  // ---------------------------------------------------------------------

  /** `choice` is the outcome of the dial, or whether the timer fires; `other` is
      the thread that a lost connection spawns. */
  datatype Step =
    | Begin(t: Tid, op: Pc)
    | SetWanted(wanted: bool)
    | Move(t: Tid, choice: bool, other: Tid)

  predicate Enabled(s: State, step: Step) {
    match step
    case SetWanted(_) => true
    case Begin(t, op) =>
      && PcOf(s, t).Idle?
      && (op == ConnectLock(User) || op == StopLock || (s.hasClient && (op == ConnectedLock || op == LostSet)))
    case Move(t, choice, other) =>
      match PcOf(s, t)
      case Idle => false
      case ConnectLock(_) => s.mu == None
      case LoopRead(_) => s.mu == None
      case LoopWait(_, stop) => choice || (stop.Some? && stop.value in s.closed)
      case StopLock => s.mu == None
      case ConnectedLock => s.mu == None
      case LostSpawn => s.wanted ==> other != t && PcOf(s, other).Idle?
      case _ => true
  }

  predicate Busy(conn: ConnState) { conn == Connected || conn == Connecting }

  function MustClose(s: State): bool { s.stop.Some? && s.stop.value !in s.closed }

  function Next(s: State, step: Step): State
    requires Enabled(s, step)
  {
    match step
    case Begin(t, op) => Goto(s, t, op)
    case SetWanted(wanted) => s.(wanted := wanted, quiet := s.quiet && !wanted)
    case Move(t, choice, other) => MoveThread(s, t, choice, other)
  }

  function CloseCurrent(s: State): State {
    if s.stop.None? then s
    else s.(closedTwice := s.closedTwice || s.stop.value in s.closed, closed := s.closed + {s.stop.value})
  }

  function MoveThread(s: State, t: Tid, choice: bool, other: Tid): State {
    var pc := PcOf(s, t);
    if InConnect(pc) then MoveConnect(s, t, pc, choice)
    else if InDisconnect(pc) then MoveDisconnect(s, t, pc)
    else MoveOther(s, t, pc, choice, other)
  }

  predicate InConnect(pc: Pc) {
    pc.ConnectLock? || pc.ReadState? || pc.ReadWanted? || pc.SetConnecting? || pc.TestStop? || pc.CloseStop?
    || pc.ReplaceStop? || pc.Dial?
  }

  predicate InDisconnect(pc: Pc) {
    pc.StopLock? || pc.StopTest? || pc.StopClose? || pc.StopReplace? || pc.StopState? || pc.StopQuit?
    || pc.StopDone? || pc.StopUnlock?
  }

  function MoveConnect(s: State, t: Tid, pc: Pc, choice: bool): State {
    match pc
    case ConnectLock(who) => Goto(s.(mu := Some(t)), t, ReadState(who))
    case ReadState(who) =>
      if Busy(s.conn) then Goto(s.(mu := None), t, Return(who, true)) else Goto(s, t, ReadWanted(who))
    case ReadWanted(who) =>
      if !s.wanted then Goto(s.(mu := None), t, Return(who, false)) else Goto(s, t, SetConnecting(who))
    case SetConnecting(who) =>
      Goto(s.(conn := Connecting, reentered := s.reentered || Busy(s.conn),
              startedWhileQuiet := s.startedWhileQuiet || s.quiet), t, TestStop(who))
    case TestStop(who) => Goto(s, t, if MustClose(s) then CloseStop(who) else ReplaceStop(who))
    case CloseStop(who) => Goto(CloseCurrent(s), t, ReplaceStop(who))
    case ReplaceStop(who) =>
      Goto(s.(stop := Some(s.made), made := s.made + 1, hasClient := true, mu := None), t, Dial(who))
    case Dial(who) =>
      if choice then Goto(s, t, Return(who, true)) else Goto(s.(conn := Disconnected), t, Return(who, false))
    case _ => s
  }

  function MoveDisconnect(s: State, t: Tid, pc: Pc): State {
    match pc
    case StopLock => Goto(s.(mu := Some(t)), t, StopTest)
    case StopTest => Goto(s, t, if MustClose(s) then StopClose else StopReplace)
    case StopClose => Goto(CloseCurrent(s), t, StopReplace)
    case StopReplace =>
      Goto(s.(stop := Some(s.made), closed := s.closed + {s.made}, made := s.made + 1), t, StopState)
    case StopState => Goto(s, t, if s.conn == Disconnected || s.conn == Disconnecting then StopUnlock else StopQuit)
    case StopQuit => Goto(s.(conn := Disconnecting), t, StopDone)
    case StopDone => Goto(s.(conn := Disconnected), t, StopUnlock)
    case StopUnlock => Goto(s.(mu := None, quiet := s.quiet || !s.wanted), t, Idle)
    case _ => s
  }

  function MoveOther(s: State, t: Tid, pc: Pc, choice: bool, other: Tid): State {
    match pc
    case LoopRead(delay) => Goto(s, t, LoopWait(delay, s.stop))
    case LoopWait(delay, _) => Goto(s, t, if choice then LoopWanted(delay) else Idle)
    case LoopWanted(delay) => Goto(s, t, if s.wanted then ConnectLock(Loop(delay)) else Idle)
    case ConnectedLock => Goto(s.(mu := Some(t)), t, ConnectedSet)
    case ConnectedSet => Goto(s.(conn := Connected, mu := None), t, Idle)
    case LostSet => Goto(s.(conn := Disconnected), t, LostSpawn)
    case LostSpawn =>
      if s.wanted then Goto(Goto(s, t, Idle), other, LoopRead(MIN_DELAY)) else Goto(s, t, Idle)
    case _ => s
  }

  // ---------------------------------------------------------------------
  // The invariant
  // ---------------------------------------------------------------------

  predicate Holds(pc: Pc) {
    pc.ReadState? || pc.ReadWanted? || pc.SetConnecting? || pc.TestStop? || pc.CloseStop? || pc.ReplaceStop?
    || pc.StopTest? || pc.StopClose? || pc.StopReplace? || pc.StopState? || pc.StopQuit? || pc.StopDone?
    || pc.StopUnlock? || pc.ConnectedSet?
  }

  predicate DelayOk(delay: nat) { MIN_DELAY <= delay <= MAX_DELAY }

  /** What a thread at `pc` may rely on. */
  ghost predicate Local(s: State, pc: Pc) {
    match pc
    case ReadState(who) => WhoOk(s, who)
    case ReadWanted(who) => WhoOk(s, who) && !Busy(s.conn)
    case SetConnecting(who) => WhoOk(s, who) && !Busy(s.conn) && !s.quiet
    case CloseStop(who) => WhoOk(s, who) && MustClose(s)
    case ReplaceStop(who) => WhoOk(s, who) && !MustClose(s)
    case LoopRead(delay) => s.hasClient && DelayOk(delay)
    case LoopWait(delay, stop) => s.hasClient && DelayOk(delay) && stop.Some? && stop.value < s.made
    case LoopWanted(delay) => s.hasClient && DelayOk(delay)
    case StopClose => MustClose(s)
    case StopReplace => !MustClose(s)
    case StopState => s.stop.Some? && !MustClose(s)
    case StopQuit => s.stop.Some? && !MustClose(s)
    case StopDone => s.stop.Some? && !MustClose(s)
    case StopUnlock => s.stop.Some? && !MustClose(s)
    case ConnectLock(who) => WhoOk(s, who)
    case TestStop(who) => WhoOk(s, who)
    case Dial(who) => WhoOk(s, who)
    case LostSet => s.hasClient
    case LostSpawn => s.hasClient
    case _ => true
  }

  ghost predicate WhoOk(s: State, who: Who) { who.Loop? ==> s.hasClient && DelayOk(who.delay) }

  ghost predicate Inv(s: State) {
    && (forall t: Tid :: s.mu == Some(t) <==> Holds(PcOf(s, t)))
    && ChannelInv(s)
    && (forall t: Tid :: Local(s, PcOf(s, t)))
  }

  /** Only the current stop channel can be open. */
  ghost predicate ChannelInv(s: State) {
    && (forall c: Chan :: c in s.closed ==> c < s.made)
    && (s.stop.Some? ==> s.stop.value < s.made)
    && (forall c: Chan :: c < s.made && c !in s.closed ==> s.stop == Some(c))
    && (s.hasClient ==> s.stop.Some?)
    && (s.quiet ==> !s.wanted)
    && !s.closedTwice && !s.reentered && !s.startedWhileQuiet
  }

  // ---------------------------------------------------------------------
  // Every step keeps it
  // ---------------------------------------------------------------------

  /** What one step can do to the fields that other threads rely on: while
      somebody else holds the lock, it leaves the stop channels alone and does
      not make the connection busy. */
  ghost predicate EffectOk(s: State, s': State, t: Tid) {
    && (s.hasClient ==> s'.hasClient) && s.made <= s'.made
    && (forall u: Tid :: u != t && PcOf(s', u) != PcOf(s, u) ==> PcOf(s', u) == LoopRead(MIN_DELAY) && s.hasClient)
    && (s.mu.Some? && s.mu != Some(t) ==>
          s'.stop == s.stop && s'.closed == s.closed && s'.quiet == s.quiet && (Busy(s'.conn) ==> Busy(s.conn)))
  }

  lemma ConnectEffect(s: State, t: Tid, choice: bool, other: Tid)
    requires Inv(s) && Enabled(s, Move(t, choice, other)) && InConnect(PcOf(s, t))
    ensures EffectOk(s, MoveConnect(s, t, PcOf(s, t), choice), t)
  {
    assert Local(s, PcOf(s, t));
  }

  lemma DisconnectEffect(s: State, t: Tid, choice: bool, other: Tid)
    requires Inv(s) && Enabled(s, Move(t, choice, other)) && InDisconnect(PcOf(s, t))
    ensures EffectOk(s, MoveDisconnect(s, t, PcOf(s, t)), t)
  {
    assert Local(s, PcOf(s, t));
  }

  lemma OtherEffect(s: State, t: Tid, choice: bool, other: Tid)
    requires Inv(s) && Enabled(s, Move(t, choice, other)) && !InConnect(PcOf(s, t)) && !InDisconnect(PcOf(s, t))
    ensures EffectOk(s, MoveOther(s, t, PcOf(s, t), choice, other), t)
  {
    assert Local(s, PcOf(s, t));
  }

  lemma MoveEffect(s: State, t: Tid, choice: bool, other: Tid)
    requires Inv(s) && Enabled(s, Move(t, choice, other))
    ensures EffectOk(s, MoveThread(s, t, choice, other), t)
  {
    hide MoveConnect, MoveDisconnect, MoveOther, Enabled, Inv, InConnect, InDisconnect, EffectOk;
    if InConnect(PcOf(s, t)) { ConnectEffect(s, t, choice, other); }
    else if InDisconnect(PcOf(s, t)) { DisconnectEffect(s, t, choice, other); }
    else { OtherEffect(s, t, choice, other); }
  }

  /** What a thread relies on survives the step of another one. */
  lemma OthersKeepLocal(s: State, t: Tid, choice: bool, other: Tid, u: Tid)
    requires Inv(s) && Enabled(s, Move(t, choice, other)) && u != t
    ensures var s' := MoveThread(s, t, choice, other);
      Local(s', PcOf(s', u))
  {
    MoveEffect(s, t, choice, other);
    hide MoveThread, Enabled, PcOf;
    assert Local(s, PcOf(s, u));
  }

  lemma ConnectLocal(s: State, t: Tid, choice: bool, other: Tid)
    requires Inv(s) && Enabled(s, Move(t, choice, other)) && InConnect(PcOf(s, t))
    ensures var s' := MoveConnect(s, t, PcOf(s, t), choice);
      Local(s', PcOf(s', t))
  {
    assert Local(s, PcOf(s, t));
  }

  lemma ConnectHolders(s: State, t: Tid, choice: bool, other: Tid)
    requires Inv(s) && Enabled(s, Move(t, choice, other)) && InConnect(PcOf(s, t))
    ensures var s' := MoveConnect(s, t, PcOf(s, t), choice);
      forall u: Tid :: s'.mu == Some(u) <==> Holds(PcOf(s', u))
  {
    assert Local(s, PcOf(s, t));
  }

  lemma ConnectOwn(s: State, t: Tid, choice: bool, other: Tid)
    requires Inv(s) && Enabled(s, Move(t, choice, other)) && InConnect(PcOf(s, t))
    ensures var s' := MoveConnect(s, t, PcOf(s, t), choice);
      Local(s', PcOf(s', t)) && forall u: Tid :: s'.mu == Some(u) <==> Holds(PcOf(s', u))
  {
    hide Inv, MoveConnect, Enabled, Local, Holds, PcOf, InConnect, InDisconnect;
    ConnectLocal(s, t, choice, other);
    ConnectHolders(s, t, choice, other);
  }

  lemma ConnectChannels(s: State, t: Tid, choice: bool, other: Tid)
    requires Inv(s) && Enabled(s, Move(t, choice, other)) && InConnect(PcOf(s, t))
    ensures ChannelInv(MoveConnect(s, t, PcOf(s, t), choice))
  {
    assert Local(s, PcOf(s, t));
  }

  lemma DisconnectLocal(s: State, t: Tid, choice: bool, other: Tid)
    requires Inv(s) && Enabled(s, Move(t, choice, other)) && InDisconnect(PcOf(s, t))
    ensures var s' := MoveDisconnect(s, t, PcOf(s, t));
      Local(s', PcOf(s', t))
  {
    assert Local(s, PcOf(s, t));
  }

  lemma DisconnectHolders(s: State, t: Tid, choice: bool, other: Tid)
    requires Inv(s) && Enabled(s, Move(t, choice, other)) && InDisconnect(PcOf(s, t))
    ensures var s' := MoveDisconnect(s, t, PcOf(s, t));
      forall u: Tid :: s'.mu == Some(u) <==> Holds(PcOf(s', u))
  {
    assert Local(s, PcOf(s, t));
  }

  lemma DisconnectOwn(s: State, t: Tid, choice: bool, other: Tid)
    requires Inv(s) && Enabled(s, Move(t, choice, other)) && InDisconnect(PcOf(s, t))
    ensures var s' := MoveDisconnect(s, t, PcOf(s, t));
      Local(s', PcOf(s', t)) && forall u: Tid :: s'.mu == Some(u) <==> Holds(PcOf(s', u))
  {
    hide Inv, MoveDisconnect, Enabled, Local, Holds, PcOf, InConnect, InDisconnect;
    DisconnectLocal(s, t, choice, other);
    DisconnectHolders(s, t, choice, other);
  }

  lemma DisconnectChannels(s: State, t: Tid, choice: bool, other: Tid)
    requires Inv(s) && Enabled(s, Move(t, choice, other)) && InDisconnect(PcOf(s, t))
    ensures ChannelInv(MoveDisconnect(s, t, PcOf(s, t)))
  {
    assert Local(s, PcOf(s, t));
  }

  lemma OtherLocal(s: State, t: Tid, choice: bool, other: Tid)
    requires Inv(s) && Enabled(s, Move(t, choice, other)) && !InConnect(PcOf(s, t)) && !InDisconnect(PcOf(s, t))
    ensures var s' := MoveOther(s, t, PcOf(s, t), choice, other);
      Local(s', PcOf(s', t))
  {
    assert Local(s, PcOf(s, t));
  }

  lemma OtherHolders(s: State, t: Tid, choice: bool, other: Tid)
    requires Inv(s) && Enabled(s, Move(t, choice, other)) && !InConnect(PcOf(s, t)) && !InDisconnect(PcOf(s, t))
    ensures var s' := MoveOther(s, t, PcOf(s, t), choice, other);
      forall u: Tid :: s'.mu == Some(u) <==> Holds(PcOf(s', u))
  {
    assert Local(s, PcOf(s, t));
  }

  lemma OtherOwn(s: State, t: Tid, choice: bool, other: Tid)
    requires Inv(s) && Enabled(s, Move(t, choice, other)) && !InConnect(PcOf(s, t)) && !InDisconnect(PcOf(s, t))
    ensures var s' := MoveOther(s, t, PcOf(s, t), choice, other);
      Local(s', PcOf(s', t)) && forall u: Tid :: s'.mu == Some(u) <==> Holds(PcOf(s', u))
  {
    hide Inv, MoveOther, Enabled, Local, Holds, PcOf, InConnect, InDisconnect;
    OtherLocal(s, t, choice, other);
    OtherHolders(s, t, choice, other);
  }

  lemma OtherChannels(s: State, t: Tid, choice: bool, other: Tid)
    requires Inv(s) && Enabled(s, Move(t, choice, other)) && !InConnect(PcOf(s, t)) && !InDisconnect(PcOf(s, t))
    ensures ChannelInv(MoveOther(s, t, PcOf(s, t), choice, other))
  {
    assert Local(s, PcOf(s, t));
  }

  lemma StepKeepsInv(s: State, step: Step)
    requires Inv(s) && Enabled(s, step)
    ensures Inv(Next(s, step))
  {
    match step
    case SetWanted(_) => SetWantedKeepsInv(s, step);
    case Begin(_, _) => BeginKeepsInv(s, step);
    case Move(t, choice, other) =>
      hide MoveConnect, MoveDisconnect, MoveOther, Enabled, Local, Holds, InConnect, InDisconnect, ChannelInv, PcOf;
      if InConnect(PcOf(s, t)) {
        ConnectOwn(s, t, choice, other);
        ConnectChannels(s, t, choice, other);
      } else if InDisconnect(PcOf(s, t)) {
        DisconnectOwn(s, t, choice, other);
        DisconnectChannels(s, t, choice, other);
      } else {
        OtherOwn(s, t, choice, other);
        OtherChannels(s, t, choice, other);
      }
      var s' := MoveThread(s, t, choice, other);
      forall u: Tid ensures Local(s', PcOf(s', u)) {
        if u != t { OthersKeepLocal(s, t, choice, other, u); }
      }
  }

  lemma SetWantedKeepsInv(s: State, step: Step)
    requires step.SetWanted? && Inv(s)
    ensures Inv(Next(s, step))
  {
    var s' := Next(s, step);
    forall u: Tid ensures Local(s', PcOf(s', u)) && (s'.mu == Some(u) <==> Holds(PcOf(s', u))) {
      assert Local(s, PcOf(s, u));
    }
  }

  lemma BeginKeepsInv(s: State, step: Step)
    requires step.Begin? && Inv(s) && Enabled(s, step)
    ensures Inv(Next(s, step))
  {
    var s' := Next(s, step);
    forall u: Tid ensures Local(s', PcOf(s', u)) && (s'.mu == Some(u) <==> Holds(PcOf(s', u))) {
      assert Local(s, PcOf(s, u));
    }
  }

  // ---------------------------------------------------------------------
  // Whole runs
  // ---------------------------------------------------------------------

  ghost predicate Runs(s: State, steps: seq<Step>)
    decreases |steps|
  {
    steps == [] || (Enabled(s, steps[0]) && Runs(Next(s, steps[0]), steps[1..]))
  }

  ghost function After(s: State, steps: seq<Step>): State
    requires Runs(s, steps)
    decreases |steps|
  {
    if steps == [] then s else After(Next(s, steps[0]), steps[1..])
  }

  lemma {:induction false} RunKeepsInv(s: State, steps: seq<Step>)
    requires Inv(s) && Runs(s, steps)
    ensures Inv(After(s, steps))
    decreases |steps|
  {
    hide Inv, Next, Enabled;
    if steps != [] {
      StepKeepsInv(s, steps[0]);
      RunKeepsInv(Next(s, steps[0]), steps[1..]);
    }
  }

  /** In every interleaving: a stop channel that was ever replaced is closed and
      none is closed twice; the connection only starts connecting when it is
      neither connected nor connecting; and once Disconnect has returned with
      the connection unwanted, no attempt starts until somebody wants it. */
  lemma StopChannelsAreSafe(steps: seq<Step>)
    requires Runs(START, steps)
    ensures var s := After(START, steps);
      && (forall c: Chan :: c < s.made && s.stop != Some(c) ==> c in s.closed)
      && !s.closedTwice && !s.reentered && !s.startedWhileQuiet
  {
    RunKeepsInv(START, steps);
  }

  /** Seen at the steps themselves: a stop channel about to be closed is open, and a
      fresh one has never been closed. */
  lemma OnlyOpenChannelsClose(steps: seq<Step>, t: Tid)
    requires Runs(START, steps)
    ensures var s := After(START, steps);
      && (PcOf(s, t).CloseStop? || PcOf(s, t).StopClose? ==> s.stop.Some? && s.stop.value !in s.closed)
      && s.made !in s.closed
  {
    RunKeepsInv(START, steps);
    var s := After(START, steps);
    assert Local(s, PcOf(s, t));
  }

  /** And whatever step starts an attempt, it starts from a connection that is down, and
      not after a Disconnect that nobody has contradicted since. */
  lemma AttemptsStartFromRest(steps: seq<Step>, step: Step)
    requires Runs(START, steps) && Enabled(After(START, steps), step)
    requires var s := After(START, steps); Next(s, step).conn == Connecting && s.conn != Connecting
    ensures var s := After(START, steps); s.conn in {Disconnected, Disconnecting} && !s.quiet
  {
    RunKeepsInv(START, steps);
    var s := After(START, steps);
    hide Runs, After, Next, Enabled, ChannelInv;
    StarterIs(s, step);
    assert Local(s, PcOf(s, step.t));
  }

  /** One step alone makes a connection start connecting. */
  lemma StarterIs(s: State, step: Step)
    requires Enabled(s, step) && Next(s, step).conn == Connecting && s.conn != Connecting
    ensures step.Move? && PcOf(s, step.t).SetConnecting?
  {
    hide MoveConnect, MoveDisconnect, MoveOther, InConnect, InDisconnect;
    if step.Move? { MoveFacts(s, step.t, step.choice, step.other); }
  }

  /** What `quiet` records: from the end of a Disconnect of an unwanted connection until
      somebody wants it. */
  lemma QuietIs(s: State, step: Step)
    requires Enabled(s, step)
    ensures Next(s, step).quiet ==
      if step.SetWanted? then s.quiet && !step.wanted
      else if step.Move? && PcOf(s, step.t).StopUnlock? then s.quiet || !s.wanted
      else s.quiet
  {
    hide MoveConnect, MoveDisconnect, MoveOther, InConnect, InDisconnect;
    if step.Move? { MoveFacts(s, step.t, step.choice, step.other); }
  }

  /** What a move does to the two. */
  ghost predicate MoveOk(s: State, pc: Pc, s': State) {
    && s'.quiet == (if pc.StopUnlock? then s.quiet || !s.wanted else s.quiet)
    && (s'.conn == Connecting && s.conn != Connecting ==> pc.SetConnecting?)
  }

  lemma MoveFacts(s: State, t: Tid, choice: bool, other: Tid)
    ensures MoveOk(s, PcOf(s, t), MoveThread(s, t, choice, other))
  {
    hide MoveConnect, MoveDisconnect, MoveOther, InConnect, InDisconnect, MoveOk, PcOf;
    var pc := PcOf(s, t);
    if InConnect(pc) { ConnectFacts(s, t, pc, choice); }
    else if InDisconnect(pc) { DisconnectFacts(s, t, pc); }
    else { OtherFacts(s, t, pc, choice, other); }
  }

  lemma ConnectFacts(s: State, t: Tid, pc: Pc, choice: bool)
    requires InConnect(pc)
    ensures MoveOk(s, pc, MoveConnect(s, t, pc, choice))
  {
  }

  lemma DisconnectFacts(s: State, t: Tid, pc: Pc)
    requires InDisconnect(pc)
    ensures MoveOk(s, pc, MoveDisconnect(s, t, pc))
  {
  }

  lemma OtherFacts(s: State, t: Tid, pc: Pc, choice: bool, other: Tid)
    requires !InConnect(pc) && !InDisconnect(pc)
    ensures MoveOk(s, pc, MoveOther(s, t, pc, choice, other))
  {
  }

  /** Whoever is idle may call Connect or Disconnect at any time, and as soon as there is
      a client its callbacks may come. */
  lemma AnybodyMayBegin(s: State, t: Tid)
    requires PcOf(s, t).Idle?
    ensures Enabled(s, Begin(t, ConnectLock(User))) && Enabled(s, Begin(t, StopLock))
    ensures s.hasClient ==> Enabled(s, Begin(t, ConnectedLock)) && Enabled(s, Begin(t, LostSet))
  {
  }

  /** A waiting loop never waits on a missing channel: it holds the current one
      or a closed one, with a delay between the two bounds. */
  lemma LoopsWaitOnLiveChannels(steps: seq<Step>, t: Tid)
    requires Runs(START, steps) && PcOf(After(START, steps), t).LoopWait?
    ensures var s := After(START, steps);
      var pc := PcOf(s, t);
      && pc.stop.Some? && (pc.stop == s.stop || pc.stop.value in s.closed)
      && MIN_DELAY <= pc.delay <= MAX_DELAY
  {
    RunKeepsInv(START, steps);
    assert Local(After(START, steps), PcOf(After(START, steps), t));
  }

  /** When Disconnect is about to return, every reconnect loop that waits can
      leave at once. */
  lemma DisconnectWakesLoops(steps: seq<Step>, t: Tid, u: Tid)
    requires Runs(START, steps)
    requires PcOf(After(START, steps), t).StopUnlock? && PcOf(After(START, steps), u).LoopWait?
    ensures Enabled(After(START, steps), Move(u, false, t))
  {
    RunKeepsInv(START, steps);
    var s := After(START, steps);
    assert Local(s, PcOf(s, t)) && Local(s, PcOf(s, u));
  }

  /** Starting to connect is one step, and what it relies on holds right there,
      whatever the callbacks did since the state was read. */
  lemma AttemptsStartIdle(steps: seq<Step>, t: Tid)
    requires Runs(START, steps) && PcOf(After(START, steps), t).SetConnecting?
    ensures var s := After(START, steps);
      !Busy(s.conn) && !s.quiet && forall u: Tid :: PcOf(s, u).SetConnecting? ==> u == t
  {
    RunKeepsInv(START, steps);
    var s := After(START, steps);
    assert Local(s, PcOf(s, t));
    forall u: Tid | PcOf(s, u).SetConnecting? ensures u == t {
      assert Holds(PcOf(s, u)) && Holds(PcOf(s, t));
    }
  }
}
