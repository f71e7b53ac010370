/** What the operations of the event emitter have left to do: every step of their
    own brings them nearer to their end, so once no new operation starts they all
    finish. */
module EventProgress {
  import opened Events

  /** Steps to go of a write or a Close. */
  function ClosingLeft(pc: Pc): nat {
    match pc
    case CloseLock(_) => 6
    case CloseTest(_) => 5
    case Write(_, Wanting) => 4
    case Write(_, Pending) => 3
    case Write(_, Holding) => 2
    case CloseChan(_) => 1
    case _ => 0
  }

  /** Steps to go of an emission, with `size` subscriptions in the table. */
  function EmittingLeft(pc: Pc, size: nat): nat {
    match pc
    case EmitWant(_) => 2 * size + 2
    case EmitLoop(_, todo) => 2 * |todo| + 1
    case EmitTurn(_, todo, _) => 2 * |todo|
    case _ => 0
  }

  function Left(pc: Pc, closing: bool, size: nat): nat {
    if closing then ClosingLeft(pc) else EmittingLeft(pc, size)
  }

  ghost function Total(threads: map<Tid, Pc>, closing: bool, size: nat): nat
    decreases |threads|
  {
    if threads == map[] then 0
    else
      var t :| t in threads;
      Smaller(threads, t);
      Left(threads[t], closing, size) + Total(threads - {t}, closing, size)
  }

  lemma Smaller(threads: map<Tid, Pc>, t: Tid)
    requires t in threads
    ensures |threads - {t}| < |threads|
  {
    assert (threads - {t}).Keys == threads.Keys - {t};
    assert |threads.Keys| == |threads| && |(threads - {t}).Keys| == |threads - {t}|;
  }

  /** Any thread can be counted first. */
  lemma {:induction false} CountFirst(threads: map<Tid, Pc>, t: Tid, closing: bool, size: nat)
    requires t in threads
    ensures Total(threads, closing, size) == Left(threads[t], closing, size) + Total(threads - {t}, closing, size)
    decreases |threads|
  {
    hide Left;
    var u :| u in threads && Total(threads, closing, size)
      == Left(threads[u], closing, size) + Total(threads - {u}, closing, size);
    if u != t {
      Smaller(threads, u);
      Smaller(threads, t);
      CountFirst(threads - {u}, t, closing, size);
      CountFirst(threads - {t}, u, closing, size);
      assert threads - {u} - {t} == threads - {t} - {u};
    }
  }

  lemma OneThreadMoves(threads: map<Tid, Pc>, t: Tid, pc: Pc, closing: bool, size: nat)
    requires t in threads
    ensures Total(threads[t := pc], closing, size) + Left(threads[t], closing, size)
      == Total(threads, closing, size) + Left(pc, closing, size)
  {
    hide Left, Total;
    CountFirst(threads, t, closing, size);
    CountFirst(threads[t := pc], t, closing, size);
    assert threads[t := pc] - {t} == threads - {t};
  }

  /** A thread that has moved nearer to the end of what it does. */
  ghost predicate Nearer(before: Pc, after: Pc, size: nat, sameTable: bool) {
    || ClosingLeft(after) < ClosingLeft(before)
    || (ClosingLeft(after) == ClosingLeft(before) && sameTable
        && EmittingLeft(after, size) < EmittingLeft(before, size))
  }

  lemma WritingStep(s: State, step: Step)
    requires Enabled(s, step) && (step.Announce? || step.EnterWrite? || step.WriteAndUnlock?)
    ensures var s', t := Next(s, step), step.t;
      && t in s.threads && t in s'.threads && s'.threads == s.threads[t := s'.threads[t]]
      && ClosingLeft(s'.threads[t]) < ClosingLeft(s.threads[t])
  {
  }

  lemma ClosingStep(s: State, step: Step)
    requires Enabled(s, step) && (step.LockFlag? || step.TestFlag? || step.CloseChannel?)
    ensures var s', t := Next(s, step), step.t;
      && t in s.threads && t in s'.threads && s'.threads == s.threads[t := s'.threads[t]]
      && ClosingLeft(s'.threads[t]) < ClosingLeft(s.threads[t])
  {
  }

  lemma EmittingStep(s: State, step: Step)
    requires Enabled(s, step) && (step.ReadLock? || step.PickSub? || step.Deliver? || step.ReadUnlock?)
    requires step.Deliver? ==> PcOf(s, step.t).sub in PcOf(s, step.t).todo
    ensures var s', t := Next(s, step), step.t;
      && t in s.threads && t in s'.threads && s'.threads == s.threads[t := s'.threads[t]]
      && ClosingLeft(s'.threads[t]) == ClosingLeft(s.threads[t]) && s'.table == s.table
      && EmittingLeft(s'.threads[t], |s.table|) < EmittingLeft(s.threads[t], |s.table|)
  {
    hide Served, TakeTurn;
  }

  /** What a step of its own does to the thread that takes it. */
  lemma OwnStep(s: State, step: Step)
    requires Inv(s) && Enabled(s, step) && Progress(step)
    ensures var s', t := Next(s, step), step.t;
      && t in s.threads && t in s'.threads && s'.threads == s.threads[t := s'.threads[t]]
      && Nearer(s.threads[t], s'.threads[t], |s.table|, s'.table == s.table)
  {
    assert step.Deliver? ==> PcOf(s, step.t).sub in PcOf(s, step.t).todo by {
      hide LockInv, CloseInv, StreamInv, TurnInv, DoneInv;
    }
    hide Inv, Next, Enabled, ClosingLeft, EmittingLeft;
    match step
    case Announce(_) => WritingStep(s, step);
    case EnterWrite(_) => WritingStep(s, step);
    case WriteAndUnlock(_) => WritingStep(s, step);
    case LockFlag(_) => ClosingStep(s, step);
    case TestFlag(_) => ClosingStep(s, step);
    case CloseChannel(_) => ClosingStep(s, step);
    case _ => EmittingStep(s, step);
  }

  /** Every step that an operation takes brings the whole nearer to rest: less is
      left of the writes and closes, or the same of these and less of the emissions. */
  lemma ProgressIsMade(s: State, step: Step)
    requires Inv(s) && Enabled(s, step) && Progress(step)
    ensures var s' := Next(s, step);
      || Total(s'.threads, true, 0) < Total(s.threads, true, 0)
      || (Total(s'.threads, true, 0) == Total(s.threads, true, 0)
          && Total(s'.threads, false, |s'.table|) < Total(s.threads, false, |s.table|))
  {
    OwnStep(s, step);
    hide Inv, Next, Enabled, Total, ClosingLeft, EmittingLeft;
    var s', t := Next(s, step), step.t;
    OneThreadMoves(s.threads, t, s'.threads[t], true, 0);
    OneThreadMoves(s.threads, t, s'.threads[t], false, |s.table|);
  }

  /** So no run of such steps goes on for ever, and since one is always possible,
      each ends with every operation finished. */
  lemma {:induction false} AllFinish(s: State) returns (steps: seq<Step>)
    requires Inv(s)
    ensures Runs(s, steps) && (forall step :: step in steps ==> Progress(step))
    ensures forall t: Tid :: PcOf(After(s, steps), t).Idle?
    decreases Total(s.threads, true, 0), Total(s.threads, false, |s.table|)
  {
    hide Inv, Next, Enabled, Total, PcOf;
    if t: Tid :| !PcOf(s, t).Idle? {
      var step := SomeoneMoves(s, t);
      ProgressIsMade(s, step);
      StepKeeps(s, step);
      var rest := AllFinish(Next(s, step));
      steps := [step] + rest;
      assert steps[1..] == rest;
    } else {
      steps := [];
    }
  }

  lemma StepKeeps(s: State, step: Step)
    requires Inv(s) && Enabled(s, step)
    ensures Inv(Next(s, step))
  {
    hide Next, Enabled, LockInv, RefInv, CloseInv, StreamInv, TurnInv, DoneInv;
    StepKeepsSafety(s, step);
    StepKeepsHistory(s, step);
  }

  /** From every reachable state: operations that have begun finish, once no new
      one starts, without help from any receiver. */
  lemma OperationsFinish(steps: seq<Step>) returns (more: seq<Step>)
    requires Runs(START, steps)
    ensures Runs(After(START, steps), more) && (forall step :: step in more ==> Progress(step))
    ensures forall t: Tid :: PcOf(After(After(START, steps), more), t).Idle?
  {
    hide Inv, Next, Enabled, PcOf;
    StartInv();
    RunKeepsInv(START, steps);
    more := AllFinish(After(START, steps));
  }
}
