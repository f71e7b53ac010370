/** The event emitter's own code, one call at a time: the methods of
    pkg/core/events.go on the objects they change. Each does to a subscription
    what the steps of the concurrent model do, and a call that nobody interrupts
    is one of that model's runs. */
module Emitter {
  import opened Text
  import opened Events

  class Subscription {
    const id: nat
    const user: string
    const capacity: nat
    const emitter: EventEmitter
    var events: seq<nat> // the buffer of the channel, by number of the emission
    var closed: bool
    var chanClosed: bool
    ghost var received: seq<nat>
    ghost var turns: seq<Turn>

    constructor (id: nat, user: string, capacity: nat, emitter: EventEmitter)
      ensures Abs() == Sub(user, capacity, [], false, None, false, None, [], [])
      ensures this.id == id && this.emitter == emitter
    {
      this.id, this.user, this.capacity, this.emitter := id, user, capacity, emitter;
      events, closed, chanClosed, received, turns := [], false, false, [], [];
    }

    ghost function Abs(): Sub
      reads this
    {
      Sub(user, capacity, events, closed, None, chanClosed, None, received, turns)
    }

    /** A second call does nothing; the channel is never closed twice. */
    method Close() returns (panicked: bool)
      requires emitter.Valid() && (chanClosed ==> closed)
      modifies this`closed, this`chanClosed, emitter`subscriptions
      ensures emitter.Valid() && !panicked && closed && chanClosed == (old(chanClosed) || !old(closed))
      ensures emitter.subscriptions == if old(closed) then old(emitter.subscriptions)
        else old(emitter.subscriptions) - {id}
    {
      if closed { return false; }
      closed := true;
      emitter.Unsubscribe(id);
      panicked := chanClosed;
      chanClosed := true;
    }

    ghost method Skip(turn: Turn)
      modifies this`turns
      ensures turns == old(turns) + [turn]
    {
      turns := turns + [turn];
    }

    /** One turn of EmitUser: skip a closed or foreign subscription, else send
        without blocking. */
    method Offer(user: string, n: nat) returns (panicked: bool)
      requires chanClosed ==> closed
      modifies this`events, this`turns
      ensures !panicked && Abs() == Served(old(Abs()), n, TakeTurn(old(Abs()), user, false), false)
      ensures events ==
        if !closed && (this.user == "" || this.user == user) && |old(events)| < capacity then old(events) + [n]
        else old(events)
    {
      panicked := false;
      if closed {
        Skip(Turn(n, Closed, |events|));
        return;
      }
      if this.user == "" || this.user == user {
        panicked := chanClosed;
        if |events| < capacity {
          Skip(Turn(n, Sent, |events|));
          events := events + [n];
        } else {
          Skip(Turn(n, Full, |events|));
        }
      } else {
        Skip(Turn(n, Foreign, |events|));
      }
    }
  }

  class EventEmitter {
    var subscriptions: map<nat, Subscription>
    var nextID: nat
    var bufferSize: nat

    constructor ()
      ensures Valid() && subscriptions == map[] && nextID == 0 && bufferSize == 100
    {
      subscriptions, nextID, bufferSize := map[], 0, 100;
    }

    ghost predicate Valid()
      reads this, subscriptions.Values
    {
      forall id :: id in subscriptions ==>
        id <= nextID && subscriptions[id].id == id && subscriptions[id].emitter == this
        && (subscriptions[id].chanClosed ==> subscriptions[id].closed)
    }

    method SetBufferSize(size: nat)
      requires Valid()
      modifies this`bufferSize
      ensures Valid() && bufferSize == size
    {
      bufferSize := size;
    }

    method SubscribeUser(user: string) returns (sub: Subscription)
      requires Valid()
      modifies this`subscriptions, this`nextID
      ensures Valid() && fresh(sub) && sub.id == nextID == old(nextID) + 1
      ensures sub.Abs() == Sub(user, bufferSize, [], false, None, false, None, [], [])
      ensures nextID !in old(subscriptions) && subscriptions == old(subscriptions)[nextID := sub]
    {
      nextID := nextID + 1;
      sub := new Subscription(nextID, user, bufferSize, this);
      subscriptions := subscriptions[nextID := sub];
    }

    method Unsubscribe(id: nat)
      requires Valid()
      modifies this`subscriptions
      ensures Valid() && subscriptions == old(subscriptions) - {id}
    {
      subscriptions := subscriptions - {id};
    }

    /** Every subscription gets its turn; no send meets a closed channel. An open
        subscription of that user, or of all users, gets the event if it has room,
        and no other buffer changes. */
    method EmitUser(user: string, n: nat) returns (panicked: bool)
      requires Valid()
      modifies subscriptions.Values
      ensures Valid() && !panicked
      ensures forall id :: id in subscriptions ==>
        var before := old(subscriptions[id].Abs());
        subscriptions[id].Abs() == Served(before, n, TakeTurn(before, user, false), false)
      ensures forall id :: id in subscriptions ==>
        var sub := subscriptions[id];
        var wanted := !old(sub.closed) && (sub.user == "" || sub.user == user) && |old(sub.events)| < sub.capacity;
        sub.events == (if wanted then old(sub.events) + [n] else old(sub.events)) && sub.closed == old(sub.closed)
    {
      hide Served, TakeTurn;
      ghost var before := map id | id in subscriptions :: subscriptions[id].Abs();
      panicked := OfferAll(user, n);
      hide Valid;
      forall id | id in subscriptions
        ensures var sub := subscriptions[id];
          var wanted := !old(sub.closed) && (sub.user == "" || sub.user == user) && |old(sub.events)| < sub.capacity;
          sub.events == (if wanted then old(sub.events) + [n] else old(sub.events)) && sub.closed == old(sub.closed)
      {
        assert before[id] == old(subscriptions[id].Abs());
        BufferGrows(before[id], n, user);
      }
    }

    /** The loop over the table. */
    method OfferAll(user: string, n: nat) returns (panicked: bool)
      requires Valid()
      modifies subscriptions.Values
      ensures Valid() && !panicked
      ensures forall id :: id in subscriptions ==>
        var before := old(subscriptions[id].Abs());
        subscriptions[id].Abs() == Served(before, n, TakeTurn(before, user, false), false)
    {
      hide Served, TakeTurn;
      panicked := false;
      var todo := subscriptions.Keys;
      while todo != {}
        invariant todo <= subscriptions.Keys && Valid() && !panicked
        invariant forall id :: id in todo ==> subscriptions[id].Abs() == old(subscriptions[id].Abs())
        invariant forall id :: id in subscriptions && id !in todo ==>
          var before := old(subscriptions[id].Abs());
          subscriptions[id].Abs() == Served(before, n, TakeTurn(before, user, false), false)
        decreases todo
      {
        var id :| id in todo;
        todo := todo - {id};
        var sendFailed := subscriptions[id].Offer(user, n);
        panicked := panicked || sendFailed;
      }
    }
  }

  /** What one turn does to a buffer. */
  lemma BufferGrows(sub: Sub, n: nat, user: string)
    ensures var after := Served(sub, n, TakeTurn(sub, user, false), false);
      && after.buffer ==
        (if !sub.flag && (sub.user == "" || sub.user == user) && |sub.buffer| < sub.capacity then sub.buffer + [n]
         else sub.buffer)
      && after.flag == sub.flag && after.received == sub.received
  {
  }

  // ---------------------------------------------------------------------
  // A call that nobody interrupts
  // ---------------------------------------------------------------------

  /** Thread `t` runs alone: no lock is held and every listed id exists. */
  ghost predicate Quiescent(s: State, t: Tid) {
    && PcOf(s, t).Idle? && s.writer == None && t !in s.readers
    && s.table <= s.subs.Keys && forall c: SubId :: c in s.subs ==> s.subs[c].lock == None
  }

  /** What an uninterrupted emission leaves of a subscription. */
  ghost function Emitted(s: State, todo: set<SubId>, n: nat, user: string, c: SubId): Sub
    requires c in s.subs
  {
    if c in todo then Served(s.subs[c], n, TakeTurn(s.subs[c], user, false), false) else s.subs[c]
  }

  ghost predicate Loops(s: State, t: Tid, n: nat, todo: set<SubId>) {
    && PcOf(s, t) == EmitLoop(n, todo) && n < |s.emissions| && todo <= s.subs.Keys
    && forall c: SubId :: c in s.subs ==> s.subs[c].lock == None
  }

  lemma LockIsNotRead(sub: Sub, t: Tid, n: nat, user: string)
    requires sub.lock == None
    ensures var locked := sub.(lock := Some(t));
      Served(locked, n, TakeTurn(locked, user, false), false).(lock := None) ==
        Served(sub, n, TakeTurn(sub, user, false), false)
  {
  }

  lemma OneTurn(s: State, t: Tid, n: nat, todo: set<SubId>, c: SubId)
    requires Loops(s, t, n, todo) && c in todo
    ensures Enabled(s, PickSub(t, c)) && Enabled(Next(s, PickSub(t, c)), Deliver(t, false))
    ensures var s' := Next(Next(s, PickSub(t, c)), Deliver(t, false));
      && Loops(s', t, n, todo - {c}) && s'.subs.Keys == s.subs.Keys
      && s'.emissions == s.emissions && s'.table == s.table && s'.writer == s.writer && s'.readers == s.readers
      && s'.subs[c] == Served(s.subs[c], n, TakeTurn(s.subs[c], s.emissions[n].user, false), false)
      && forall d: SubId :: d in s.subs && d != c ==> s'.subs[d] == s.subs[d]
  {
    hide Served, TakeTurn;
    var s1 := Next(s, PickSub(t, c));
    assert PcOf(s1, t) == EmitTurn(n, todo, c) && s1.subs[c] == s.subs[c].(lock := Some(t));
    LockIsNotRead(s.subs[c], t, n, s.emissions[n].user);
  }

  lemma {:induction false} AllTurns(s: State, t: Tid, n: nat, todo: set<SubId>) returns (steps: seq<Step>)
    requires Loops(s, t, n, todo)
    ensures Runs(s, steps)
    ensures var s' := After(s, steps);
      && Loops(s', t, n, {}) && s'.subs.Keys == s.subs.Keys && s'.emissions == s.emissions && s'.table == s.table
      && s'.writer == s.writer && s'.readers == s.readers
      && (forall c: SubId :: c in s.subs ==> s'.subs[c] == Emitted(s, todo, n, s.emissions[n].user, c))
    decreases |todo|
  {
    hide Next, Enabled, Served, TakeTurn;
    if todo == {} {
      steps := [];
    } else {
      var c :| c in todo;
      OneTurn(s, t, n, todo, c);
      var s1 := Next(s, PickSub(t, c));
      var s2 := Next(s1, Deliver(t, false));
      var rest := AllTurns(s2, t, n, todo - {c});
      steps := [PickSub(t, c), Deliver(t, false)] + rest;
      assert steps[1..] == [Deliver(t, false)] + rest && steps[1..][1..] == rest;
    }
  }

  /** The emission that EmitUser performs is a run of the concurrent model: from
      the same subscriptions it leads to the same buffers and turns. */
  lemma EmitIsARun(s: State, t: Tid, user: string) returns (steps: seq<Step>)
    requires Quiescent(s, t)
    ensures Runs(s, steps) && After(s, steps).table == s.table && After(s, steps).subs.Keys == s.subs.Keys
    ensures PcOf(After(s, steps), t).Idle?
    ensures forall c: SubId :: c in s.subs ==> After(s, steps).subs[c] == Emitted(s, s.table, |s.emissions|, user, c)
  {
    hide Served, TakeTurn;
    var s1 := Next(s, CallEmit(t, user));
    var s2 := Next(s1, ReadLock(t));
    var n := |s.emissions|;
    var rest := AllTurns(s2, t, n, s.table);
    var s3 := After(s2, rest);
    var last := [ReadUnlock(t)];
    assert last[1..] == [] && Enabled(s3, ReadUnlock(t));
    RunsConcat(s2, rest, last);
    steps := [CallEmit(t, user), ReadLock(t)] + (rest + last);
    assert steps[1..] == [ReadLock(t)] + (rest + last) && steps[1..][1..] == rest + last;
    assert After(s3, last) == Next(s3, ReadUnlock(t));
  }

  /** So is SubscribeUser. */
  lemma SubscribeIsARun(s: State, t: Tid, user: string) returns (steps: seq<Step>)
    requires Quiescent(s, t) && s.readers == {}
    ensures Runs(s, steps) && PcOf(After(s, steps), t).Idle?
    ensures var s', id := After(s, steps), s.nextId + 1;
      && s'.nextId == id && s'.table == s.table + {id} && s'.writer == None && s'.readers == {}
      && s'.subs == s.subs[id := Sub(user, s.bufferSize, [], false, None, false, None, [], [])]
  {
    var s1 := Next(s, CallWrite(t, Subscribe(user)));
    steps := [CallWrite(t, Subscribe(user))] + WriteSteps(t);
    WriteIsARun(s1, t);
    assert steps[1..] == WriteSteps(t);
  }

  /** And SetBufferSize, which counts for later subscriptions only. */
  lemma SetBufferIsARun(s: State, t: Tid, size: nat) returns (steps: seq<Step>)
    requires Quiescent(s, t) && s.readers == {}
    ensures Runs(s, steps) && PcOf(After(s, steps), t).Idle?
    ensures After(s, steps).bufferSize == size && After(s, steps).subs == s.subs && After(s, steps).table == s.table
  {
    var s1 := Next(s, CallWrite(t, SetBuffer(size)));
    steps := [CallWrite(t, SetBuffer(size))] + WriteSteps(t);
    WriteIsARun(s1, t);
    assert steps[1..] == WriteSteps(t);
  }

  function WriteSteps(t: Tid): seq<Step> { [Announce(t), EnterWrite(t), WriteAndUnlock(t)] }

  /** Three steps perform a write that nobody is in the way of. */
  lemma WriteIsARun(s: State, t: Tid)
    requires PcOf(s, t).Write? && PcOf(s, t).phase == Wanting && s.writer == None && s.readers == {}
    ensures Runs(s, WriteSteps(t))
    ensures After(s, WriteSteps(t)) == Perform(s, t, PcOf(s, t).op)
  {
    hide Perform;
    var s1 := Next(s, Announce(t));
    var s2 := Next(s1, EnterWrite(t));
    ThreeSteps(s, Announce(t), EnterWrite(t), WriteAndUnlock(t));
    PerformIgnores(s, s2, t, PcOf(s, t).op);
  }

  lemma PerformIgnores(s: State, s2: State, t: Tid, op: WriteOp)
    requires s.writer == None && s2.(writer := None, threads := s.threads) == s && t in s.threads
    requires t in s2.threads && s2.threads == s.threads[t := s2.threads[t]]
    ensures Perform(s2.(writer := None), t, op) == Perform(s, t, op)
  {
    var pc := PcOf(Perform(s, t, op), t);
    assert s2.threads[t := pc] == s.threads[t := pc];
  }

  /** And Close, which does nothing the second time. */
  lemma CloseIsARun(s: State, t: Tid, c: SubId) returns (steps: seq<Step>)
    requires Quiescent(s, t) && s.readers == {} && c in s.subs
    ensures Runs(s, steps) && PcOf(After(s, steps), t).Idle?
    ensures var s', sub := After(s, steps), s.subs[c];
      && s'.subs == s.subs[c := if sub.flag then sub else sub.(flag := true, chanClosed := true, closer := None)]
      && s'.table == (if sub.flag then s.table else s.table - {c})
      && s'.panicked == (s.panicked || (!sub.flag && sub.chanClosed))
  {
    var first := [CallClose(t, c), LockFlag(t), TestFlag(t)];
    var s3 := TestRun(s, t, c);
    steps := first;
    if !s.subs[c].flag {
      var s4 := Perform(s3, t, Unsubscribe(c));
      var s5 := Next(s4, CloseChannel(t));
      assert s5.subs[c] == s.subs[c].(flag := true, chanClosed := true, closer := None);
      hide Next, Enabled, Perform;
      WriteIsARun(s3, t);
      OneStep(s4, CloseChannel(t));
      RunsConcat(s3, WriteSteps(t), [CloseChannel(t)]);
      RunsConcat(s, first, WriteSteps(t) + [CloseChannel(t)]);
      steps := first + (WriteSteps(t) + [CloseChannel(t)]);
    } else {
      assert s3.subs[c] == s.subs[c];
    }
  }

  lemma OneStep(s: State, step: Step)
    requires Enabled(s, step)
    ensures Runs(s, [step]) && After(s, [step]) == Next(s, step)
  {
    hide Next, Enabled;
    assert [step][1..] == [] && Runs(Next(s, step), []);
  }

  /** The first three steps of Close. */
  lemma TestRun(s: State, t: Tid, c: SubId) returns (s3: State)
    requires Quiescent(s, t) && c in s.subs
    ensures var first := [CallClose(t, c), LockFlag(t), TestFlag(t)];
      Runs(s, first) && After(s, first) == s3
    ensures s3.table == s.table && s3.panicked == s.panicked && s3.writer == s.writer && s3.readers == s.readers
    ensures var sub := s.subs[c];
      if sub.flag then PcOf(s3, t).Idle? && s3.subs == s.subs[c := sub]
      else
        && PcOf(s3, t) == Write(Unsubscribe(c), Wanting)
        && s3.subs == s.subs[c := sub.(flag := true, closer := Some(t))]
  {
    var s1 := Next(s, CallClose(t, c));
    var s2 := Next(s1, LockFlag(t));
    s3 := Next(s2, TestFlag(t));
    assert s2.subs[c] == s.subs[c].(lock := Some(t));
    ThreeSteps(s, CallClose(t, c), LockFlag(t), TestFlag(t));
  }

  lemma ThreeSteps(s: State, a: Step, b: Step, c: Step)
    requires Enabled(s, a) && Enabled(Next(s, a), b) && Enabled(Next(Next(s, a), b), c)
    ensures Runs(s, [a, b, c]) && After(s, [a, b, c]) == Next(Next(Next(s, a), b), c)
  {
    hide Next, Enabled;
    var s1 := Next(s, a);
    var s2 := Next(s1, b);
    OneStep(s2, c);
    assert [b, c][1..] == [c] && Runs(s1, [b, c]) && After(s1, [b, c]) == Next(s2, c);
    assert [a, b, c][1..] == [b, c];
  }

  lemma {:induction false} RunsConcat(s: State, a: seq<Step>, b: seq<Step>)
    requires Runs(s, a) && Runs(After(s, a), b)
    ensures Runs(s, a + b) && After(s, a + b) == After(After(s, a), b)
    decreases |a|
  {
    hide Next, Enabled;
    if a == [] {
      assert a + b == b;
    } else {
      RunsConcat(Next(s, a[0]), a[1..], b);
      assert (a + b)[1..] == a[1..] + b;
    }
  }
}
