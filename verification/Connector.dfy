/** The connection's own code, one call at a time: Connect, Disconnect and the
    reconnect loop of pkg/irc/connection.go on the fields they change. A call that
    nobody interrupts is a run of the concurrent model. */
module Connector {
  import opened Text
  import opened Reconnect

  /** The fields, as the concurrent model has them. */
  datatype Fields = Fields(conn: ConnState, wanted: bool, stop: Option<Chan>, made: Chan, closed: set<Chan>,
      hasClient: bool)

  function FieldsOf(s: State): Fields { Fields(s.conn, s.wanted, s.stop, s.made, s.closed, s.hasClient) }

  datatype Outcome = Done | NotWanted | DialFailed | Panicked

  /** A fresh stop channel replaces the old one, which ends up closed. */
  function Swapped(f: Fields): Fields {
    f.(closed := if f.stop.Some? then f.closed + {f.stop.value} else f.closed, stop := Some(f.made), made := f.made + 1)
  }

  function ConnectResult(f: Fields, dialOk: bool): (Fields, Outcome) {
    if Busy(f.conn) then (f, Done)
    else if !f.wanted then (f, NotWanted)
    else
      (Swapped(f).(hasClient := true, conn := if dialOk then Connecting else Disconnected),
       if dialOk then Done else DialFailed)
  }

  function Stopped(f: Fields): Fields {
    var g := Swapped(f);
    g.(closed := g.closed + {f.made}, conn := if f.conn == Disconnecting then Disconnecting else Disconnected)
  }

  /** How the surroundings of a reconnect loop answer one round: which event of
      the select comes first, what is wanted by then, and whether the dial works. */
  datatype Round = Round(timerFirst: bool, wanted: bool, dialOk: bool)

  function NextDelay(delay: nat): nat { if 2 * delay > MAX_DELAY then MAX_DELAY else 2 * delay }

  class Connection {
    var conn: ConnState
    var wanted: bool
    var stopReconnect: Option<Chan>
    var made: Chan
    var closed: set<Chan>
    var hasClient: bool

    constructor ()
      ensures Abs() == Fields(Disconnected, true, None, 0, {}, false)
    {
      conn, wanted, stopReconnect, made, closed, hasClient := Disconnected, true, None, 0, {}, false;
    }

    ghost function Abs(): Fields
      reads this
    {
      Fields(conn, wanted, stopReconnect, made, closed, hasClient)
    }

    /** Channels are numbered in the order they are made. */
    ghost predicate Valid()
      reads this
    {
      (stopReconnect.Some? ==> stopReconnect.value < made) && forall c: Chan :: c in closed ==> c < made
    }

    /** close(ch) panics on a closed channel. */
    method CloseChannel(c: Chan) returns (panicked: bool)
      modifies this`closed
      ensures panicked == (c in old(closed)) && closed == old(closed) + {c}
    {
      panicked := c in closed;
      closed := closed + {c};
    }

    method MakeChannel() returns (c: Chan)
      modifies this`made
      ensures c == old(made) && made == c + 1
    {
      c := made;
      made := made + 1;
    }

    /** The select that closes the stop channel unless it is closed already. */
    method CloseStop() returns (panicked: bool)
      modifies this`closed
      ensures !panicked
      ensures closed == if stopReconnect.Some? then old(closed) + {stopReconnect.value} else old(closed)
    {
      panicked := false;
      if stopReconnect.Some? && stopReconnect.value !in closed {
        panicked := CloseChannel(stopReconnect.value);
      }
    }

    method Connect(dialOk: bool) returns (outcome: Outcome)
      requires Valid()
      modifies this
      ensures Valid() && (Abs(), outcome) == ConnectResult(old(Abs()), dialOk)
      ensures old(conn) in {ConnState.Connected, Connecting} ==> outcome == Done && Abs() == old(Abs())
      ensures old(conn) in {Disconnected, Disconnecting} && !old(wanted) ==> outcome == NotWanted && Abs() == old(Abs())
      ensures old(conn) in {Disconnected, Disconnecting} && old(wanted) ==>
        && outcome == (if dialOk then Done else DialFailed) && conn == (if dialOk then Connecting else Disconnected)
        && stopReconnect == Some(old(made)) && made == old(made) + 1 && old(made) !in closed && wanted && hasClient
        && closed == old(closed) + if old(stopReconnect).Some? then {old(stopReconnect).value} else {}
    {
      if conn == ConnState.Connected || conn == Connecting { return Done; }
      if !wanted { return NotWanted; }
      conn := Connecting;
      var panicked := CloseStop();
      var stop := MakeChannel();
      stopReconnect := Some(stop);
      hasClient := true;
      if panicked { return Panicked; }
      if !dialOk {
        conn := Disconnected;
        return DialFailed;
      }
      outcome := Done;
    }

    /** Leaves a closed stop channel behind, even when there is nothing to close. */
    method Disconnect() returns (panicked: bool)
      requires Valid()
      modifies this
      ensures Valid() && !panicked && Abs() == Stopped(old(Abs()))
      ensures stopReconnect == Some(old(made)) && made == old(made) + 1
      ensures closed == old(closed) + {old(made)} +
        if old(stopReconnect).Some? then {old(stopReconnect).value} else {}
      ensures conn == (if old(conn) == Disconnecting then Disconnecting else Disconnected)
      ensures wanted == old(wanted) && hasClient == old(hasClient)
    {
      panicked := CloseStop();
      var stopped := MakeChannel();
      var again := CloseChannel(stopped);
      panicked := panicked || again;
      stopReconnect := Some(stopped);
      if conn == Disconnected || conn == Disconnecting { return; }
      conn := Disconnecting;
      conn := Disconnected;
    }

    /** The rounds of a reconnect loop, as long as its surroundings last: it goes
        round again exactly when the timer came first, the connection is wanted
        and the dial failed. */
    method ReconnectLoop(rounds: seq<Round>) returns (delays: seq<nat>)
      requires Valid()
      modifies this
      ensures Valid() && |delays| <= |rounds|
      ensures forall k :: 0 <= k < |delays| ==> delays[k] == Delay(k)
      ensures |delays| < |rounds| ==> |delays| > 0
      ensures forall k :: 0 <= k < |delays| - 1 ==> rounds[k].timerFirst && rounds[k].wanted && !rounds[k].dialOk
      ensures 0 < |delays| < |rounds| ==>
        var last := rounds[|delays| - 1]; !last.timerFirst || !last.wanted || last.dialOk || Busy(conn)
    {
      hide Swapped, Delay;
      DelayStep(0);
      delays := [];
      var delay := MIN_DELAY;
      for i := 0 to |rounds|
        invariant Valid() && |delays| == i && delay == Delay(i)
        invariant forall k :: 0 <= k < i ==> delays[k] == Delay(k)
        invariant forall k :: 0 <= k < i ==> rounds[k].timerFirst && rounds[k].wanted && !rounds[k].dialOk
      {
        delays := delays + [delay];
        DelayStep(i);
        if !rounds[i].timerFirst { return; }
        wanted := rounds[i].wanted;
        if !wanted { return; }
        var outcome := Connect(rounds[i].dialOk);
        if outcome == Done { return; }
        delay := delay * 2;
        if delay > MAX_DELAY {
          delay := MAX_DELAY;
        }
      }
    }
  }

  /** The delay of round k. */
  function Delay(k: nat): nat { if k == 0 then MIN_DELAY else NextDelay(Delay(k - 1)) }

  lemma DelayStep(k: nat)
    ensures Delay(0) == MIN_DELAY && Delay(k + 1) == NextDelay(Delay(k))
  {
  }

  function Pow2(k: nat): nat { if k == 0 then 1 else 2 * Pow2(k - 1) }

  /** Doubling from two seconds, five minutes at most. */
  lemma {:induction false} DelayIsCapped(k: nat)
    ensures Delay(k) == if MIN_DELAY * Pow2(k) > MAX_DELAY then MAX_DELAY else MIN_DELAY * Pow2(k)
  {
    if k > 0 { DelayIsCapped(k - 1); }
  }

  // ---------------------------------------------------------------------
  // A call that nobody interrupts
  // ---------------------------------------------------------------------

  ghost predicate Alone(s: State, t: Tid) { PcOf(s, t).Idle? && s.mu == None }

  /** The next `n` moves of one thread. */
  function Moves(t: Tid, n: nat, dialOk: bool): seq<Step> {
    if n == 0 then [] else [Move(t, dialOk, t)] + Moves(t, n - 1, dialOk)
  }

  lemma FirstMove(s: State, t: Tid, n: nat, dialOk: bool)
    requires n > 0 && Enabled(s, Move(t, dialOk, t)) && Runs(MoveThread(s, t, dialOk, t), Moves(t, n - 1, dialOk))
    ensures Runs(s, Moves(t, n, dialOk))
    ensures After(s, Moves(t, n, dialOk)) == After(MoveThread(s, t, dialOk, t), Moves(t, n - 1, dialOk))
  {
    assert Moves(t, n, dialOk)[1..] == Moves(t, n - 1, dialOk);
  }

  /** The last two steps of Connect. */
  lemma ReplaceAndDial(s: State, t: Tid, who: Who, dialOk: bool)
    requires PcOf(s, t) == ReplaceStop(who)
    ensures Runs(s, Moves(t, 2, dialOk)) && PcOf(After(s, Moves(t, 2, dialOk)), t) == Return(who, dialOk)
    ensures FieldsOf(After(s, Moves(t, 2, dialOk))) == FieldsOf(s).(
      stop := Some(s.made), made := s.made + 1, hasClient := true, conn := if dialOk then s.conn else Disconnected)
    ensures After(s, Moves(t, 2, dialOk)).mu == None
  {
    hide Moves, Return;
    var s1 := MoveThread(s, t, dialOk, t);
    assert PcOf(s1, t) == Dial(who);
    NoMoves(MoveThread(s1, t, dialOk, t), t, dialOk);
    FirstMove(s1, t, 1, dialOk);
    FirstMove(s, t, 2, dialOk);
  }

  lemma NoMoves(s: State, t: Tid, dialOk: bool)
    ensures Moves(t, 0, dialOk) == [] && Runs(s, []) && After(s, []) == s
  {
  }

  lemma CloseAndDial(s: State, t: Tid, who: Who, dialOk: bool)
    requires PcOf(s, t) == CloseStop(who) && s.stop.Some?
    ensures Runs(s, Moves(t, 3, dialOk)) && PcOf(After(s, Moves(t, 3, dialOk)), t) == Return(who, dialOk)
    ensures FieldsOf(After(s, Moves(t, 3, dialOk))) ==
      Swapped(FieldsOf(s)).(hasClient := true, conn := if dialOk then s.conn else Disconnected)
    ensures After(s, Moves(t, 3, dialOk)).mu == None
  {
    hide Moves, Return;
    var s1 := MoveThread(s, t, dialOk, t);
    assert PcOf(s1, t) == ReplaceStop(who) && FieldsOf(s1) == FieldsOf(s).(closed := s.closed + {s.stop.value});
    ReplaceAndDial(s1, t, who, dialOk);
    FirstMove(s, t, 3, dialOk);
  }

  /** From the step that tests the stop channel to the end of Connect. */
  lemma SwapAndDial(s: State, t: Tid, who: Who, dialOk: bool) returns (n: nat)
    requires PcOf(s, t) == TestStop(who)
    ensures Runs(s, Moves(t, n, dialOk)) && PcOf(After(s, Moves(t, n, dialOk)), t) == Return(who, dialOk)
    ensures FieldsOf(After(s, Moves(t, n, dialOk))) ==
      Swapped(FieldsOf(s)).(hasClient := true, conn := if dialOk then s.conn else Disconnected)
    ensures After(s, Moves(t, n, dialOk)).mu == None
  {
    hide Moves, Runs, After, Return;
    var s1 := MoveThread(s, t, dialOk, t);
    assert FieldsOf(s1) == FieldsOf(s) && s1.conn == s.conn;
    if MustClose(s) {
      CloseAndDial(s1, t, who, dialOk);
      n := 4;
    } else {
      assert s.stop.Some? ==> s.closed + {s.stop.value} == s.closed;
      ReplaceAndDial(s1, t, who, dialOk);
      n := 3;
    }
    FirstMove(s, t, n, dialOk);
  }

  /** Where Connect returns to. */
  function Returned(f: Fields, who: Who, dialOk: bool): Pc { Return(who, ConnectResult(f, dialOk).1 == Done) }

  lemma AskWanted(s: State, t: Tid, who: Who, dialOk: bool) returns (n: nat)
    requires PcOf(s, t) == ReadWanted(who) && !Busy(s.conn)
    ensures Runs(s, Moves(t, n, dialOk))
    ensures PcOf(After(s, Moves(t, n, dialOk)), t) == Returned(FieldsOf(s), who, dialOk)
    ensures FieldsOf(After(s, Moves(t, n, dialOk))) == ConnectResult(FieldsOf(s), dialOk).0
    ensures After(s, Moves(t, n, dialOk)).mu == None
  {
    hide Moves, Swapped, Return;
    var s1 := MoveThread(s, t, dialOk, t);
    if !s.wanted {
      NoMoves(s1, t, dialOk);
      FirstMove(s, t, 1, dialOk);
      n := 1;
    } else {
      var s2 := MoveThread(s1, t, dialOk, t);
      assert PcOf(s1, t) == SetConnecting(who) && PcOf(s2, t) == TestStop(who);
      SwapIgnoresState(FieldsOf(s), Connecting);
      var m := SwapAndDial(s2, t, who, dialOk);
      FirstMove(s1, t, m + 1, dialOk);
      FirstMove(s, t, m + 2, dialOk);
      n := m + 2;
    }
  }

  lemma SwapIgnoresState(f: Fields, conn: ConnState)
    ensures Swapped(f.(conn := conn)) == Swapped(f).(conn := conn)
  {
  }

  lemma AskState(s: State, t: Tid, who: Who, dialOk: bool) returns (n: nat)
    requires PcOf(s, t) == ReadState(who)
    ensures Runs(s, Moves(t, n, dialOk))
    ensures PcOf(After(s, Moves(t, n, dialOk)), t) == Returned(FieldsOf(s), who, dialOk)
    ensures FieldsOf(After(s, Moves(t, n, dialOk))) == ConnectResult(FieldsOf(s), dialOk).0
    ensures After(s, Moves(t, n, dialOk)).mu == None
  {
    hide Moves, Swapped, Return;
    var s1 := MoveThread(s, t, dialOk, t);
    if Busy(s.conn) {
      NoMoves(s1, t, dialOk);
      FirstMove(s, t, 1, dialOk);
      n := 1;
    } else {
      assert FieldsOf(s1) == FieldsOf(s);
      var m := AskWanted(s1, t, who, dialOk);
      FirstMove(s, t, m + 1, dialOk);
      n := m + 1;
    }
  }

  /** From the step that takes the lock to the end of Connect. */
  lemma LockAndConnect(s: State, t: Tid, who: Who, dialOk: bool) returns (n: nat)
    requires PcOf(s, t) == ConnectLock(who) && s.mu == None
    ensures Runs(s, Moves(t, n, dialOk))
    ensures PcOf(After(s, Moves(t, n, dialOk)), t) == Returned(FieldsOf(s), who, dialOk)
    ensures FieldsOf(After(s, Moves(t, n, dialOk))) == ConnectResult(FieldsOf(s), dialOk).0
    ensures After(s, Moves(t, n, dialOk)).mu == None
  {
    hide Moves, ConnectResult, Return;
    var s1 := MoveThread(s, t, dialOk, t);
    assert FieldsOf(s1) == FieldsOf(s);
    n := AskState(s1, t, who, dialOk);
    FirstMove(s, t, n + 1, dialOk);
    n := n + 1;
  }

  /** What Connect does is a run of the concurrent model. */
  lemma ConnectIsARun(s: State, t: Tid, dialOk: bool) returns (steps: seq<Step>)
    requires Alone(s, t)
    ensures Runs(s, steps) && PcOf(After(s, steps), t).Idle?
    ensures FieldsOf(After(s, steps)) == ConnectResult(FieldsOf(s), dialOk).0
  {
    hide Moves, ConnectResult;
    var s0 := Next(s, Begin(t, ConnectLock(User)));
    var n := LockAndConnect(s0, t, User, dialOk);
    steps := [Begin(t, ConnectLock(User))] + Moves(t, n, dialOk);
    assert steps[1..] == Moves(t, n, dialOk);
  }

  // ---------------------------------------------------------------------
  // Coming back
  // ---------------------------------------------------------------------

  /** One round of a reconnect loop that nobody interrupts: the timer fires, and if the
      dial works the loop is over with a new attempt under way; if it fails the loop
      waits again, twice as long and five minutes at most. */
  lemma LoopGoesRound(s: State, t: Tid, delay: nat, dialOk: bool) returns (steps: seq<Step>)
    requires PcOf(s, t) == LoopRead(delay) && s.mu == None && s.wanted && s.conn in {Disconnected, Disconnecting}
    ensures Runs(s, steps) && After(s, steps).mu == None
    ensures PcOf(After(s, steps), t) ==
      if dialOk then Idle else LoopRead(if 2 * delay > 300 then 300 else 2 * delay)
    ensures After(s, steps).conn == if dialOk then Connecting else Disconnected
    ensures After(s, steps).stop == Some(s.made) && After(s, steps).made == s.made + 1 && After(s, steps).wanted
  {
    hide Moves, ConnectResult, Enabled, Next;
    var s3 := LoopWaits(s, t, delay);
    var n := LockAndConnect(s3, t, Loop(delay), dialOk);
    RoundResult(FieldsOf(s), delay, dialOk);
    var rest := Moves(t, n, dialOk);
    steps := [Move(t, true, t), Move(t, true, t), Move(t, true, t)] + rest;
    FourParts(s, Move(t, true, t), Move(t, true, t), Move(t, true, t), rest);
  }

  /** What Connect comes to in that round. */
  lemma RoundResult(f: Fields, delay: nat, dialOk: bool)
    requires f.wanted && f.conn in {Disconnected, Disconnecting}
    ensures Returned(f, Loop(delay), dialOk) ==
      if dialOk then Idle else LoopRead(if 2 * delay > 300 then 300 else 2 * delay)
    ensures var g := ConnectResult(f, dialOk).0;
      && g.conn == (if dialOk then Connecting else Disconnected)
      && g.stop == Some(f.made) && g.made == f.made + 1 && g.wanted
  {
  }

  /** The three steps before the loop calls Connect. */
  lemma LoopWaits(s: State, t: Tid, delay: nat) returns (s3: State)
    requires PcOf(s, t) == LoopRead(delay) && s.mu == None && s.wanted
    ensures Enabled(s, Move(t, true, t)) && Enabled(Next(s, Move(t, true, t)), Move(t, true, t))
    ensures Enabled(Next(Next(s, Move(t, true, t)), Move(t, true, t)), Move(t, true, t))
    ensures s3 == Next(Next(Next(s, Move(t, true, t)), Move(t, true, t)), Move(t, true, t))
    ensures PcOf(s3, t) == ConnectLock(Loop(delay)) && FieldsOf(s3) == FieldsOf(s) && s3.mu == None
  {
    var s1 := Next(s, Move(t, true, t));
    var s2 := Next(s1, Move(t, true, t));
    s3 := Next(s2, Move(t, true, t));
    assert PcOf(s1, t) == LoopWait(delay, s.stop) && PcOf(s2, t) == LoopWanted(delay);
  }

  lemma FourParts(s: State, a: Step, b: Step, c: Step, rest: seq<Step>)
    requires Enabled(s, a) && Enabled(Next(s, a), b) && Enabled(Next(Next(s, a), b), c)
    requires Runs(Next(Next(Next(s, a), b), c), rest)
    ensures Runs(s, [a, b, c] + rest) && After(s, [a, b, c] + rest) == After(Next(Next(Next(s, a), b), c), rest)
  {
    hide Next, Enabled;
    assert ([c] + rest)[1..] == rest;
    assert ([b, c] + rest)[1..] == [c] + rest;
    assert ([a, b, c] + rest)[1..] == [b, c] + rest;
    var s2 := Next(Next(s, a), b);
    assert Runs(s2, [c] + rest) && After(s2, [c] + rest) == After(Next(s2, c), rest);
    assert Runs(Next(s, a), [b, c] + rest);
  }

  /** When a wanted connection is lost, a reconnect loop starts with the least delay;
      if the connection is not wanted, none does. */
  lemma LostStartsALoop(s: State, t: Tid, loop: Tid) returns (s2: State)
    requires PcOf(s, t).LostSet? && loop != t && PcOf(s, loop).Idle?
    ensures var steps := [Move(t, true, loop), Move(t, true, loop)]; Runs(s, steps) && After(s, steps) == s2
    ensures s2.conn == Disconnected && PcOf(s2, t).Idle? && s2.mu == s.mu && s2.wanted == s.wanted
    ensures PcOf(s2, loop) == if s.wanted then LoopRead(2) else Idle
  {
    var lost := Move(t, true, loop);
    var s1 := Next(s, lost);
    assert PcOf(s1, t) == LostSpawn && PcOf(s1, loop).Idle?;
    s2 := Next(s1, lost);
    hide Next, Enabled, PcOf;
    assert [lost][1..] == [] && Runs(s1, [lost]) && After(s1, [lost]) == s2;
    assert [lost, lost][1..] == [lost];
  }

  /** So a lost connection comes back: from every state in which the loss of a wanted
      connection is being handled, some run has a new attempt under way, with the loop
      and the callback done. */
  lemma LostComesBack(s: State, t: Tid, loop: Tid) returns (steps: seq<Step>)
    requires PcOf(s, t).LostSet? && loop != t && PcOf(s, loop).Idle? && s.wanted && s.mu == None
    ensures Runs(s, steps) && After(s, steps).conn == Connecting && PcOf(After(s, steps), loop).Idle?
  {
    hide Next, Enabled, PcOf;
    var s2 := LostStartsALoop(s, t, loop);
    var rest := LoopGoesRound(s2, loop, 2, true);
    steps := [Move(t, true, loop), Move(t, true, loop)] + rest;
    RunsOn(s, [Move(t, true, loop), Move(t, true, loop)], rest);
  }

  lemma {:induction false} RunsOn(s: State, a: seq<Step>, b: seq<Step>)
    requires Runs(s, a) && Runs(After(s, a), b)
    ensures Runs(s, a + b) && After(s, a + b) == After(After(s, a), b)
    decreases |a|
  {
    hide Next, Enabled;
    if a == [] {
      assert a + b == b;
    } else {
      RunsOn(Next(s, a[0]), a[1..], b);
      assert (a + b)[1..] == a[1..] + b;
    }
  }

  /** The client's callback for a connection that is up. */
  lemma ConnectedIsARun(s: State, t: Tid) returns (steps: seq<Step>)
    requires Alone(s, t) && s.hasClient
    ensures Runs(s, steps) && PcOf(After(s, steps), t).Idle?
    ensures FieldsOf(After(s, steps)) == FieldsOf(s).(conn := ConnState.Connected) && After(s, steps).mu == None
  {
    var begin, move := Begin(t, ConnectedLock), Move(t, true, t);
    var s1 := Next(s, begin);
    var s2 := Next(s1, move);
    var s3 := Next(s2, move);
    assert PcOf(s1, t) == ConnectedLock && PcOf(s2, t) == ConnectedSet;
    hide Next, Enabled, PcOf;
    steps := [begin, move, move];
    assert steps == steps + [];
    FourParts(s, begin, move, move, []);
  }

  // ---------------------------------------------------------------------
  // Disconnect that nobody interrupts
  // ---------------------------------------------------------------------

  /** From the step that looks at the state to the end of Disconnect. */
  lemma StopAndUnlock(s: State, t: Tid) returns (n: nat)
    requires PcOf(s, t) == StopState
    ensures Runs(s, Moves(t, n, true)) && PcOf(After(s, Moves(t, n, true)), t).Idle?
    ensures FieldsOf(After(s, Moves(t, n, true))) ==
      FieldsOf(s).(conn := if s.conn == Disconnecting then Disconnecting else Disconnected)
  {
    hide Moves;
    var s1 := MoveThread(s, t, true, t);
    if s.conn == Disconnected || s.conn == Disconnecting {
      n := Unlock(s1, t);
    } else {
      var s2 := MoveThread(s1, t, true, t);
      var s3 := MoveThread(s2, t, true, t);
      assert PcOf(s1, t) == StopQuit && PcOf(s2, t) == StopDone && PcOf(s3, t) == StopUnlock;
      n := Unlock(s3, t);
      FirstMove(s2, t, n + 1, true);
      FirstMove(s1, t, n + 2, true);
      n := n + 2;
    }
    FirstMove(s, t, n + 1, true);
    n := n + 1;
  }

  lemma Unlock(s: State, t: Tid) returns (n: nat)
    requires PcOf(s, t) == StopUnlock
    ensures Runs(s, Moves(t, n, true)) && PcOf(After(s, Moves(t, n, true)), t).Idle?
    ensures FieldsOf(After(s, Moves(t, n, true))) == FieldsOf(s)
  {
    hide Moves;
    NoMoves(MoveThread(s, t, true, t), t, true);
    FirstMove(s, t, 1, true);
    n := 1;
  }

  lemma ReplaceAndStop(s: State, t: Tid) returns (n: nat)
    requires PcOf(s, t) == StopTest
    ensures Runs(s, Moves(t, n, true)) && PcOf(After(s, Moves(t, n, true)), t).Idle?
    ensures FieldsOf(After(s, Moves(t, n, true))) == Stopped(FieldsOf(s))
  {
    hide Moves;
    var s1 := MoveThread(s, t, true, t);
    var s2 := if MustClose(s) then MoveThread(s1, t, true, t) else s1;
    assert PcOf(s2, t) == StopReplace;
    var s3 := MoveThread(s2, t, true, t);
    assert s.stop.Some? && !MustClose(s) ==> s.closed + {s.stop.value} == s.closed;
    assert FieldsOf(s3).(conn := Stopped(FieldsOf(s)).conn) == Stopped(FieldsOf(s));
    var m := StopAndUnlock(s3, t);
    FirstMove(s2, t, m + 1, true);
    if MustClose(s) {
      FirstMove(s1, t, m + 2, true);
      FirstMove(s, t, m + 3, true);
      n := m + 3;
    } else {
      FirstMove(s, t, m + 2, true);
      n := m + 2;
    }
  }

  /** And so is what Disconnect does. */
  lemma DisconnectIsARun(s: State, t: Tid) returns (steps: seq<Step>)
    requires Alone(s, t)
    ensures Runs(s, steps) && PcOf(After(s, steps), t).Idle?
    ensures FieldsOf(After(s, steps)) == Stopped(FieldsOf(s))
  {
    hide Moves, Stopped;
    var s0 := Next(s, Begin(t, StopLock));
    var s1 := MoveThread(s0, t, true, t);
    assert FieldsOf(s1) == FieldsOf(s);
    var n := ReplaceAndStop(s1, t);
    FirstMove(s0, t, n + 1, true);
    steps := [Begin(t, StopLock)] + Moves(t, n + 1, true);
    assert steps[1..] == Moves(t, n + 1, true);
  }
}
