/** What the socket promises over every run: whatever the caller and the browser
    do, and in whatever order. */
module SocketLaws {
  import opened Text
  import opened Socket

  /** The caller's calls and the browser's events. The first three of the
      browser's may come late, from a WebSocket that has been replaced: then they
      leave the ready state of the current one alone. */
  datatype Event =
    | Send(given: string, body: map<string, string>)
    | OpenCall
    | CloseCall
    | Delete(id: string)
    | SetUrl(works: bool)
    | CameOpen(late: bool)
    | WentClosed(delay: Delay)
    | Reply(id: string, errors: bool)
    | StartsClosing(ready: Ready)
    | Timer(tid: nat)

  /** Only the armed reconnect timer runs out for good; the keepalive interval
      goes on. The browser opens a WebSocket only when it fires `onopen`. */
  predicate MayHappen(s: State, e: Event) {
    match e
    case StartsClosing(ready) => s.ws.Real? && (ready == Closing || ready == Closed)
    case Timer(tid) => tid in s.timers && s.reconnectTid == Some(tid)
    case CameOpen(late) => late || s.ws == Real(Connecting)
    case _ => true
  }

  function Next(s: State, e: Event): State
    requires MayHappen(s, e)
  {
    match e
    case Send(given, body) => Sent(s, given, body)
    case OpenCall => Opened(s)
    case CloseCall => ClosedByUser(s)
    case Delete(id) => s.(waiting := s.waiting - {id})
    case SetUrl(works) => s.(urlWorks := works)
    case CameOpen(late) => CameUp(if late then s else s.(ws := Real(Open)))
    case WentClosed(delay) => WentDown(s, delay)
    case Reply(id, errors) => Answered(s, id, errors)
    case StartsClosing(ready) => s.(ws := Real(ready))
    case Timer(tid) => TimedOut(s, tid)
  }

  predicate MayRun(s: State, es: seq<Event>)
    decreases |es|
  {
    es == [] || (MayHappen(s, es[0]) && MayRun(Next(s, es[0]), es[1..]))
  }

  function After(s: State, es: seq<Event>): State
    requires MayRun(s, es)
    decreases |es|
  {
    if es == [] then s else After(Next(s, es[0]), es[1..])
  }

  const START := State([], map[], Placeholder, 0, 0, true, false, None, None, {}, 1, [])

  // ---------------------------------------------------------------------
  // Nothing is lost, duplicated or reordered
  // ---------------------------------------------------------------------

  /** The messages that a run passes to send(), with the ids they get. */
  function Passed(es: seq<Event>, lastId: nat): seq<Message>
    decreases |es|
  {
    if es == [] then []
    else if es[0].Send? && es[0].given != "" then
      [Message(es[0].given, es[0].body, None, false)] + Passed(es[1..], lastId)
    else if es[0].Send? then
      [Message(Decimal(lastId + 1), es[0].body, None, false)] + Passed(es[1..], lastId + 1)
    else Passed(es[1..], lastId)
  }

  function PassedBy(e: Event, lastId: nat): seq<Message> {
    if e.Send? then [Message(IdFor(e.given, lastId).0, e.body, None, false)] else []
  }

  lemma StepConserves(s: State, e: Event)
    requires MayHappen(s, e)
    ensures Next(s, e).wire + Next(s, e).queue == s.wire + s.queue + PassedBy(e, s.lastId)
    ensures Next(s, e).lastId == if e.Send? then IdFor(e.given, s.lastId).1 else s.lastId
  {
    hide Awaiting, Decimal, NotWaiting, Cleared;
    if e.Send? {
      var m := Message(IdFor(e.given, s.lastId).0, e.body, None, false);
      assert s.wire + (s.queue + [m]) == s.wire + s.queue + [m];
    }
    assert s.wire + s.queue + [] == s.wire + s.queue;
  }

  lemma PassedFirst(es: seq<Event>, lastId: nat)
    ensures Passed([], lastId) == []
    ensures es != [] ==>
      Passed(es, lastId) == PassedBy(es[0], lastId) +
        Passed(es[1..], if es[0].Send? then IdFor(es[0].given, lastId).1 else lastId)
  {
    hide Decimal;
    if es != [] { assert [] + Passed(es[1..], lastId) == Passed(es[1..], lastId); }
  }

  lemma {:induction false} RunConserves(s: State, es: seq<Event>)
    requires MayRun(s, es)
    ensures After(s, es).wire + After(s, es).queue == s.wire + s.queue + Passed(es, s.lastId)
    decreases |es|
  {
    hide Next, MayHappen, IdFor, Passed, PassedBy;
    PassedFirst(es, s.lastId);
    if es == [] {
      assert s.wire + s.queue + [] == s.wire + s.queue;
    } else {
      StepConserves(s, es[0]);
      RunConserves(Next(s, es[0]), es[1..]);
      var here, later := PassedBy(es[0], s.lastId), Passed(es[1..], Next(s, es[0]).lastId);
      assert s.wire + s.queue + here + later == s.wire + s.queue + (here + later);
    }
  }

  /** What has been written to all sockets, followed by the queue, is what has
      been passed to send(), in every run. */
  lemma NothingIsLost(es: seq<Event>)
    requires MayRun(START, es)
    ensures After(START, es).wire + After(START, es).queue == Passed(es, 0)
  {
    RunConserves(START, es);
    var empty: seq<Message> := [];
    assert START.wire + START.queue + Passed(es, 0) == Passed(es, 0);
  }

  lemma {:induction false} DecimalIsInjective(a: nat, b: nat)
    ensures Decimal(a) == Decimal(b) ==> a == b
  {
    var x, y := Decimal(a), Decimal(b);
    DecimalShape(a);
    DecimalShape(b);
    if x == y {
      assert a % 10 == b % 10;
      if a >= 10 && b >= 10 {
        assert x[..|x| - 1] == Decimal(a / 10) && y[..|y| - 1] == Decimal(b / 10);
        DecimalIsInjective(a / 10, b / 10);
      }
    }
  }

  lemma DecimalShape(n: nat)
    ensures Decimal(n) != "" && Decimal(n)[|Decimal(n)| - 1] == '0' + (n % 10) as char
    ensures |Decimal(n)| == 1 <==> n < 10
  {
    if n >= 10 { assert Decimal(n / 10) != ""; }
  }

  /** An id of the socket's own making is its number in decimal. */
  lemma {:induction false} DecimalShows(n: nat)
    ensures Number(Decimal(n)) == n && forall c :: c in Decimal(n) ==> '0' <= c <= '9'
    ensures n > 0 ==> Decimal(n)[0] != '0'
  {
    DecimalShape(n);
    if n < 10 {
      assert Decimal(n)[..0] == "" && Number("") == 0;
    } else {
      DecimalShows(n / 10);
      assert Decimal(n)[..|Decimal(n)| - 1] == Decimal(n / 10);
    }
  }

  ghost predicate AutoIds(es: seq<Event>) { forall e :: e in es && e.Send? ==> e.given == "" }

  lemma {:induction false} AutoIdsCount(es: seq<Event>, lastId: nat, k: nat)
    requires AutoIds(es) && k < |Passed(es, lastId)|
    ensures Passed(es, lastId)[k].id == Decimal(lastId + k + 1)
    decreases |es|
  {
    hide Decimal;
    assert es[0] in es;
    if !es[0].Send? {
      AutoIdsCount(es[1..], lastId, k);
    } else if k > 0 {
      AutoIdsCount(es[1..], lastId + 1, k - 1);
    }
  }

  /** With ids of the socket's own making, no two messages share one. */
  lemma AutoIdsAreDistinct(es: seq<Event>, j: nat, k: nat)
    requires AutoIds(es) && j < k < |Passed(es, 0)|
    ensures Passed(es, 0)[j].id != Passed(es, 0)[k].id
  {
    AutoIdsCount(es, 0, j);
    AutoIdsCount(es, 0, k);
    DecimalIsInjective(j + 1, k + 1);
  }

  // ---------------------------------------------------------------------
  // Timers, and sending at once
  // ---------------------------------------------------------------------

  /** A reconnect timer is armed only without a WebSocket; the keepalive interval
      runs exactly with one; no other timer exists; an open WebSocket leaves
      nothing queued; and every waiting message carries its marks. */
  ghost predicate Good(s: State) {
    && s.timers <= Tids(s)
    && (forall t :: t in Tids(s) ==> t < s.nextTimer)
    && (s.reconnectTid.Some? && s.keepaliveTid.Some? ==> s.reconnectTid != s.keepaliveTid)
    && (s.ws.Real? ==> s.reconnectTid.None?)
    && (s.ws.Real? <==> s.keepaliveTid.Some?)
    && (s.keepaliveTid.Some? ==> s.keepaliveTid.value in s.timers)
    && (s.ws.IsOpen() ==> s.queue == [])
    && MarksOk(s.waiting)
  }

  ghost predicate MarksOk(waiting: map<string, Message>) {
    forall id :: id in waiting ==> waiting[id].stamped && waiting[id].waitingForResponse.Some?
  }

  function Tids(s: State): set<nat> {
    (if s.reconnectTid.Some? then {s.reconnectTid.value} else {}) +
    (if s.keepaliveTid.Some? then {s.keepaliveTid.value} else {})
  }

  lemma {:induction false} AwaitingKeepsMarks(waiting: map<string, Message>, queue: seq<Message>)
    requires MarksOk(waiting)
    ensures MarksOk(Awaiting(waiting, queue))
    decreases |queue|
  {
    if queue != [] { AwaitingKeepsMarks(waiting[queue[0].id := Written(queue[0])], queue[1..]); }
  }

  lemma DequeuedIsGood(s: State)
    requires Good(s.(queue := []))
    ensures Good(Dequeued(s))
  {
    AwaitingKeepsMarks(s.waiting, s.queue);
  }

  lemma OpenedIsGood(s: State)
    requires Good(s)
    ensures Good(Opened(s))
  {
    hide MarksOk;
  }

  lemma ReconnectStartedIsGood(s: State, delay: Delay)
    requires Good(s) && s.ws.Placeholder?
    ensures Good(ReconnectStarted(s, delay))
  {
    hide MarksOk, Opened;
    assert Good(ReconnectStopped(s));
    OpenedIsGood(ReconnectStopped(s));
  }

  lemma StepIsGood(s: State, e: Event)
    requires Good(s) && MayHappen(s, e)
    ensures Good(Next(s, e))
  {
    hide Opened, Dequeued, ReconnectStarted, MarksOk;
    match e
    case Send(given, body) =>
      var (id, lastId) := IdFor(given, s.lastId);
      var t := s.(queue := s.queue + [Message(id, body, None, false)], lastId := lastId);
      assert Opened(t) == Opened(s).(queue := t.queue, lastId := lastId) by { OpenedKeepsQueue(s, t.queue, lastId); }
      OpenedIsGood(s);
      DequeuedIsGood(Opened(t));
    case OpenCall => OpenedIsGood(s);
    case CameOpen(late) => DequeuedIsGood((if late then s else s.(ws := Real(Open))).(closed := 0));
    case WentClosed(delay) => DownIsGood(s, delay);
    case Timer(tid) => OpenedIsGood(s.(timers := s.timers - {tid}));
    case Delete(_) => MarksSurvive(s.waiting, Next(s, e).waiting);
    case Reply(_, _) => MarksSurvive(s.waiting, Next(s, e).waiting);
    case _ =>
  }

  lemma OpenedKeepsQueue(s: State, queue: seq<Message>, lastId: nat)
    ensures Opened(s.(queue := queue, lastId := lastId)) == Opened(s).(queue := queue, lastId := lastId)
  {
  }

  lemma MarksSurvive(waiting: map<string, Message>, less: map<string, Message>)
    requires MarksOk(waiting) && less.Keys <= waiting.Keys && forall id :: id in less ==> less[id] == waiting[id]
    ensures MarksOk(less)
  {
  }

  lemma DownIsGood(s: State, delay: Delay)
    requires Good(s)
    ensures Good(WentDown(s, delay))
  {
    hide ReconnectStarted;
    var t := KeepAliveStopped(s.(waiting := NotWaiting(s.waiting))).(ws := Placeholder, closed := s.closed + 1);
    ReconnectStartedIsGood(t, delay);
  }

  lemma {:induction false} RunIsGood(s: State, es: seq<Event>)
    requires Good(s) && MayRun(s, es)
    ensures Good(After(s, es))
    decreases |es|
  {
    hide Good, Next, MayHappen;
    if es != [] {
      StepIsGood(s, es[0]);
      RunIsGood(Next(s, es[0]), es[1..]);
    }
  }

  /** In every run: a WebSocket and an armed reconnect timer never coexist, no
      timer but the two remembered ones is ever armed, and as soon as a WebSocket
      is open everything passed to send() has been written. */
  lemma NoTimerBesideASocket(es: seq<Event>)
    requires MayRun(START, es)
    ensures var s := After(START, es);
      && (s.ws.Real? ==> s.reconnectTid.None? && s.keepaliveTid.Some? && s.timers == {s.keepaliveTid.value})
      && (s.ws.Placeholder? ==> s.keepaliveTid.None? && |s.timers| <= 1)
      && (s.ws.IsOpen() ==> s.wire == Passed(es, 0))
  {
    RunIsGood(START, es);
    NothingIsLost(es);
    var s := After(START, es);
    if s.ws.Placeholder? && s.timers != {} {
      assert s.timers == {s.reconnectTid.value};
    }
  }

  // ---------------------------------------------------------------------
  // Waiting for a reply
  // ---------------------------------------------------------------------

  /** The last message of a queue with its id stands among the waiting ones, as it was
      passed, with its two marks. */
  lemma {:induction false} QueueAwaits(waiting: map<string, Message>, queue: seq<Message>, k: nat)
    requires k < |queue| && forall l :: k < l < |queue| ==> queue[l].id != queue[k].id
    ensures var after, m := Awaiting(waiting, queue), queue[k];
      m.id in after && after[m.id] == Message(m.id, m.body, Some(true), true)
    decreases |queue|
  {
    var first, rest := queue[0], queue[1..];
    if k > 0 {
      assert forall l :: 0 <= l < |rest| ==> rest[l] == queue[l + 1];
      QueueAwaits(waiting[first.id := Written(first)], rest, k - 1);
    } else {
      assert forall m :: m in rest ==> m.id != first.id;
      OthersStay(waiting[first.id := Written(first)], rest, first.id);
    }
  }

  lemma {:induction false} OthersStay(waiting: map<string, Message>, queue: seq<Message>, id: string)
    requires id in waiting && forall m :: m in queue ==> m.id != id
    ensures id in Awaiting(waiting, queue) && Awaiting(waiting, queue)[id] == waiting[id]
    decreases |queue|
  {
    if queue != [] {
      assert queue[0] in queue;
      OthersStay(waiting[queue[0].id := Written(queue[0])], queue[1..], id);
    }
  }

  /** Whatever an event writes waits for its reply right after that event, under its
      id and as it was passed to send(). */
  lemma WrittenWaits(s: State, e: Event, k: nat)
    requires MayHappen(s, e) && |s.wire| <= k < |Next(s, e).wire|
    requires forall l :: k < l < |Next(s, e).wire| ==> Next(s, e).wire[l].id != Next(s, e).wire[k].id
    ensures var s', m := Next(s, e), Next(s, e).wire[k];
      m.id in s'.waiting && s'.waiting[m.id] == Message(m.id, m.body, Some(true), true)
  {
    hide Awaiting, Decimal, NotWaiting, Cleared;
    var before := match e
      case Send(given, body) =>
        Opened(s.(queue := s.queue + [Message(IdFor(given, s.lastId).0, body, None, false)],
                  lastId := IdFor(given, s.lastId).1))
      case CameOpen(late) => (if late then s else s.(ws := Real(Open))).(closed := 0)
      case _ => s;
    assert Next(s, e) == Dequeued(before) && before.wire == s.wire;
    hide Next, MayHappen;
    var q := before.queue;
    assert Next(s, e).wire == s.wire + q;
    forall l | k - |s.wire| < l < |q| ensures q[l].id != q[k - |s.wire|].id {
      assert Next(s, e).wire[|s.wire| + l] == q[l];
    }
    QueueAwaits(before.waiting, q, k - |s.wire|);
  }

  /** A message has its id and the keys it was passed with, and two more once written. */
  lemma KeysOf(id: string, body: map<string, string>)
    ensures Message(id, body, None, false).KeyCount() == |body| + 1
    ensures Message(id, body, Some(true), true).KeyCount() == |body| + 3
  {
  }

  /** A `close` event takes nothing out of `waiting`, and marks everything in it. */
  lemma CloseMarks(s: State, delay: Delay)
    requires Good(s)
    ensures WentDown(s, delay).waiting == map id | id in s.waiting :: s.waiting[id].(waitingForResponse := Some(false))
  {
    hide Opened;
    var t := KeepAliveStopped(s.(waiting := NotWaiting(s.waiting))).(ws := Placeholder, closed := s.closed + 1);
    OpenedKeepsWaiting(ReconnectStopped(t));
  }

  /** The three ways out of `waiting`. */
  predicate Settles(e: Event, id: string) {
    e == Delete(id) || (e.Reply? && id != "" && e.id == id) || (e.Reply? && e.id == "" && e.errors)
  }

  lemma {:induction false} AwaitingKeepsIds(waiting: map<string, Message>, queue: seq<Message>, id: string)
    ensures id in Awaiting(waiting, queue) <==> id in waiting || exists m :: m in queue && m.id == id
    decreases |queue|
  {
    if queue != [] {
      AwaitingKeepsIds(waiting[queue[0].id := Written(queue[0])], queue[1..], id);
      assert forall m :: m in queue <==> m == queue[0] || m in queue[1..];
    }
  }

  /** An id leaves `waiting` exactly by its reply, an error without an id, or an
      explicit delete: never because a WebSocket closes. */
  lemma LeavesOnlyWhenSettled(s: State, e: Event, id: string)
    requires Good(s) && MayHappen(s, e) && id in s.waiting
    ensures id !in Next(s, e).waiting <==> Settles(e, id)
  {
    hide Opened, Dequeued, WentDown, Decimal, Good, ClosedByUser;
    match e
    case Send(given, body) =>
      var t := s.(queue := s.queue + [Message(IdFor(given, s.lastId).0, body, None, false)],
                  lastId := IdFor(given, s.lastId).1);
      OpenedKeepsWaiting(t);
      DequeuedKeepsIds(Opened(t), id);
    case OpenCall => OpenedKeepsWaiting(s);
    case CloseCall => ClosedKeepsWaiting(s);
    case CameOpen(late) => DequeuedKeepsIds((if late then s else s.(ws := Real(Open))).(closed := 0), id);
    case WentClosed(delay) => DownKeepsIds(s, delay);
    case Timer(tid) => OpenedKeepsWaiting(s.(timers := s.timers - {tid}));
    case _ =>
  }

  lemma OpenedKeepsWaiting(s: State)
    ensures Opened(s).waiting == s.waiting
  {
  }

  lemma ClosedKeepsWaiting(s: State)
    ensures ClosedByUser(s).waiting == s.waiting
  {
  }

  lemma DequeuedKeepsIds(s: State, id: string)
    requires id in s.waiting
    ensures id in Dequeued(s).waiting
  {
    AwaitingKeepsIds(s.waiting, s.queue, id);
  }

  lemma DownKeepsIds(s: State, delay: Delay)
    requires Good(s)
    ensures WentDown(s, delay).waiting.Keys == s.waiting.Keys
  {
    hide Opened;
    var t := KeepAliveStopped(s.(waiting := NotWaiting(s.waiting))).(ws := Placeholder, closed := s.closed + 1);
    assert t.waiting.Keys == s.waiting.Keys;
    OpenedKeepsWaiting(ReconnectStopped(t));
  }

  /** Over a whole run, an id still waits as long as nothing has settled it. */
  lemma {:induction false} StillWaiting(s: State, es: seq<Event>, id: string)
    requires Good(s) && MayRun(s, es) && id in s.waiting && forall e :: e in es ==> !Settles(e, id)
    ensures id in After(s, es).waiting
    decreases |es|
  {
    hide Good, Next, MayHappen, Settles;
    if es != [] {
      assert es[0] in es;
      StepIsGood(s, es[0]);
      LeavesOnlyWhenSettled(s, es[0], id);
      StillWaiting(Next(s, es[0]), es[1..], id);
    }
  }

  /** So in every run, a message that has been written still waits as long as nothing
      has settled its id. */
  lemma WrittenStillWaits(before: seq<Event>, e: Event, es: seq<Event>, k: nat)
    requires MayRun(START, before) && MayHappen(After(START, before), e)
    requires var s := After(START, before);
      && |s.wire| <= k < |Next(s, e).wire| && MayRun(Next(s, e), es)
      && forall x :: x in es ==> !Settles(x, Next(s, e).wire[k].id)
    ensures var s := After(START, before); Next(s, e).wire[k].id in After(Next(s, e), es).waiting
  {
    hide Good, Next, MayHappen, Settles, Decimal;
    StartIsGood();
    RunIsGood(START, before);
    var s := After(START, before);
    StepIsGood(s, e);
    var id := Next(s, e).wire[k].id;
    var last := LastWithId(Next(s, e).wire, k);
    WrittenWaits(s, e, last);
    StillWaiting(Next(s, e), es, id);
  }

  lemma {:induction false} LastWithId(wire: seq<Message>, k: nat) returns (last: nat)
    requires k < |wire|
    ensures k <= last < |wire| && wire[last].id == wire[k].id
    ensures forall l :: last < l < |wire| ==> wire[l].id != wire[last].id
    decreases |wire| - k
  {
    if l :| k < l < |wire| && wire[l].id == wire[k].id {
      last := LastWithId(wire, l);
    } else {
      last := k;
    }
  }

  // ---------------------------------------------------------------------
  // Coming back
  // ---------------------------------------------------------------------

  /** How many `close` events have come since a WebSocket last opened. */
  function ClosesInARow(es: seq<Event>): nat {
    if es == [] || es[|es| - 1].CameOpen? then 0
    else ClosesInARow(es[..|es| - 1]) + if es[|es| - 1].WentClosed? then 1 else 0
  }

  /** `closed` counts them, from any state. */
  lemma {:induction false} ClosedCounts(s: State, es: seq<Event>)
    requires MayRun(s, es)
    ensures After(s, es).closed ==
      ClosesInARow(es) + if exists e :: e in es && e.CameOpen? then 0 else s.closed
    decreases |es|
  {
    hide Next, MayHappen, ClosesInARow;
    if es == [] {
      NoneInARow();
    } else {
      var e, rest := es[0], es[1..];
      StepCounts(s, e);
      ClosedCounts(Next(s, e), rest);
      FirstInARow(e, rest);
      assert es == [e] + rest;
      assert (exists x :: x in es && x.CameOpen?) <==> e.CameOpen? || exists x :: x in rest && x.CameOpen?;
    }
  }

  lemma NoneInARow()
    ensures ClosesInARow([]) == 0
  {
  }

  lemma StepCounts(s: State, e: Event)
    requires MayHappen(s, e)
    ensures Next(s, e).closed == if e.CameOpen? then 0 else if e.WentClosed? then s.closed + 1 else s.closed
  {
    hide Awaiting, Decimal, NotWaiting;
  }

  lemma {:induction false} FirstInARow(e: Event, rest: seq<Event>)
    ensures ClosesInARow([e] + rest) == ClosesInARow(rest) +
      if e.WentClosed? && !(exists x :: x in rest && x.CameOpen?) then 1 else 0
    decreases |rest|
  {
    var all := [e] + rest;
    if rest == [] {
      assert all[..0] == [];
    } else {
      var front, last := rest[..|rest| - 1], rest[|rest| - 1];
      assert all[|all| - 1] == last && all[..|all| - 1] == [e] + front && last in rest;
      assert forall x :: x in rest <==> x in front || x == last;
      if !last.CameOpen? { FirstInARow(e, front); }
    }
  }

  /** One second after the first close in a row, then four, six, eight, and ten for
      every later one; never after 1008 and 1011. */
  lemma DelaysAre(code: int, closed: nat)
    ensures DefaultDelay(code, closed) ==
      if code in {1008, 1011} then Never
      else In([1000, 1000, 4000, 6000, 8000, 10000][if closed <= 5 then closed else 5])
  {
  }

  /** What `keepClosed` says, which nothing reads. */
  lemma KeepClosedSays(s: State)
    ensures Next(s, CloseCall).keepClosed && Next(s, WentClosed(Never)).keepClosed
    ensures s.ws.Placeholder? && s.urlWorks ==>
      !Next(s, OpenCall).keepClosed && Next(s, OpenCall).ws == Real(Connecting)
    ensures s.ws.Real? || !s.urlWorks ==> Next(s, OpenCall) == s
  {
    hide NotWaiting;
  }

  /** Unless the answer was 1008 or 1011, losing the WebSocket arms exactly one
      timer, whose time grows with the closes in a row but never beyond ten
      seconds; and when it has run out and the new WebSocket opens, everything
      still queued is written. */
  lemma ComesBack(s: State, code: int)
    requires Good(s) && s.urlWorks && code != 1008 && code != 1011
    ensures var delay, again := DefaultDelay(code, s.closed + 1), DefaultDelay(code, s.closed + 2);
      delay.In? && 1000 <= delay.ms <= again.ms <= 10000
    ensures var down := WentDown(s, DefaultDelay(code, s.closed + 1));
      down.reconnectTid.Some? && down.timers == {down.reconnectTid.value}
    ensures var es := [WentClosed(DefaultDelay(code, s.closed + 1)), Timer(s.nextTimer), CameOpen(false)];
      MayRun(s, es) && After(s, es).ws == Real(Open) && After(s, es).queue == []
        && After(s, es).wire == s.wire + s.queue
  {
    hide MarksOk, Awaiting, Decimal;
    var delay := DefaultDelay(code, s.closed + 1);
    var es := [WentClosed(delay), Timer(s.nextTimer), CameOpen(false)];
    DownLeavesOneTimer(s, delay);
    var down := Next(s, es[0]);
    var up := Next(down, es[1]);
    hide WentDown;
    assert up.ws == Real(Connecting) && up.wire == s.wire && up.queue == s.queue;
    var last := Next(up, es[2]);
    ThreeSteps(s, es[0], es[1], es[2]);
  }

  lemma ThreeSteps(s: State, a: Event, b: Event, c: Event)
    requires MayHappen(s, a) && MayHappen(Next(s, a), b) && MayHappen(Next(Next(s, a), b), c)
    ensures MayRun(s, [a, b, c]) && After(s, [a, b, c]) == Next(Next(Next(s, a), b), c)
  {
    hide Next, MayHappen;
    var s1 := Next(s, a);
    var s2 := Next(s1, b);
    var s3 := Next(s2, c);
    assert [c][1..] == [] && MayRun(s3, []) && MayRun(s2, [c]) && After(s2, [c]) == s3;
    assert [b, c][1..] == [c] && MayRun(s1, [b, c]) && After(s1, [b, c]) == s3;
    assert [a, b, c][1..] == [b, c] && MayRun(s, [a, b, c]);
  }

  lemma DownLeavesOneTimer(s: State, delay: Delay)
    requires Good(s) && delay.In?
    ensures var down := WentDown(s, delay);
      && down.reconnectTid == Some(s.nextTimer) && down.timers == {s.nextTimer}
      && down.ws == Placeholder && down.urlWorks == s.urlWorks && down.wire == s.wire && down.queue == s.queue
  {
    hide NotWaiting, MarksOk;
  }

  // ---------------------------------------------------------------------
  // Staying closed
  // ---------------------------------------------------------------------

  /** What close() leaves behind. */
  predicate Shut(s: State) { s.ws == Placeholder && s.timers == {} }

  lemma CloseShuts(s: State)
    requires Good(s)
    ensures Shut(ClosedByUser(s)) && Good(ClosedByUser(s))
  {
    hide MarksOk;
  }

  /** The events that end it: with a URL that works, a call of send() or open(), or
      a `close` event whose answer is to reconnect now; and in any case a `close`
      event whose answer is to reconnect later. */
  predicate Rouses(s: State, e: Event) {
    || (s.urlWorks && (e.Send? || e.OpenCall?))
    || (e.WentClosed? && (e.delay.In? || (e.delay.Now? && s.urlWorks)))
  }

  lemma StepStaysShut(s: State, e: Event)
    requires Shut(s) && Good(s) && MayHappen(s, e)
    ensures Shut(Next(s, e)) <==> !Rouses(s, e)
  {
    hide MarksOk, Awaiting, NotWaiting, Decimal;
    match e
    case WentClosed(delay) => RousedByClose(s, delay);
    case CameOpen(late) => assert late;
    case _ =>
  }

  lemma RousedByClose(s: State, delay: Delay)
    requires Shut(s) && Good(s)
    ensures Shut(WentDown(s, delay)) <==> !Rouses(s, WentClosed(delay))
  {
    hide MarksOk, NotWaiting;
    assert s.nextTimer in WentDown(s, In(0)).timers;
  }

  /** Closed at every moment of a run. */
  predicate StaysShut(s: State, es: seq<Event>)
    requires MayRun(s, es)
    decreases |es|
  {
    Shut(s) && (es == [] || StaysShut(Next(s, es[0]), es[1..]))
  }

  /** No event of a run rouses the socket. */
  predicate NothingRouses(s: State, es: seq<Event>)
    requires MayRun(s, es)
    decreases |es|
  {
    es == [] || (!Rouses(s, es[0]) && NothingRouses(Next(s, es[0]), es[1..]))
  }

  lemma {:induction false} ShutIsExact(s: State, es: seq<Event>)
    requires Shut(s) && Good(s) && MayRun(s, es)
    ensures StaysShut(s, es) <==> NothingRouses(s, es)
    decreases |es|
  {
    hide Good, Next, MayHappen, Shut, Rouses;
    if es != [] {
      StepIsGood(s, es[0]);
      StepStaysShut(s, es[0]);
      if Shut(Next(s, es[0])) { ShutIsExact(Next(s, es[0]), es[1..]); }
      StaysShutNow(Next(s, es[0]), es[1..]);
    }
  }

  lemma StaysShutNow(s: State, es: seq<Event>)
    requires MayRun(s, es)
    ensures StaysShut(s, es) ==> Shut(s)
  {
  }

  /** After any run, close() keeps the socket closed, without a timer, for exactly
      as long as nothing rouses it. */
  lemma CloseIsExact(before: seq<Event>, es: seq<Event>)
    requires MayRun(START, before) && MayRun(ClosedByUser(After(START, before)), es)
    ensures var s := ClosedByUser(After(START, before)); StaysShut(s, es) <==> NothingRouses(s, es)
  {
    hide Good, Next, MayHappen, Shut;
    StartIsGood();
    RunIsGood(START, before);
    CloseShuts(After(START, before));
    ShutIsExact(ClosedByUser(After(START, before)), es);
  }

  lemma StartIsGood()
    ensures Good(START)
  {
  }

  /** No send(), no open(), and no answer to a `close` event but `Never`. */
  ghost predicate QuietRun(es: seq<Event>) {
    forall e :: e in es ==> !e.Send? && !e.OpenCall? && (e.WentClosed? ==> e.delay.Never?)
  }

  lemma {:induction false} QuietRunsRouseNothing(s: State, es: seq<Event>)
    requires MayRun(s, es) && QuietRun(es)
    ensures NothingRouses(s, es)
    decreases |es|
  {
    hide Next, MayHappen;
    if es != [] {
      assert es[0] in es;
      QuietRunsRouseNothing(Next(s, es[0]), es[1..]);
    }
  }

  /** What a caller can rely on: after any run, close() keeps the socket closed
      through every quiet run, whatever else the browser does and wherever the URL
      changes. */
  lemma CloseHoldsInQuietRuns(before: seq<Event>, es: seq<Event>)
    requires MayRun(START, before) && MayRun(ClosedByUser(After(START, before)), es) && QuietRun(es)
    ensures StaysShut(ClosedByUser(After(START, before)), es)
  {
    CloseIsExact(before, es);
    QuietRunsRouseNothing(ClosedByUser(After(START, before)), es);
  }

  /** What a `close` event does to a closed socket whose URL works: an answer of
      `Now` opens a new WebSocket, a time does so as soon as it has run out, and
      only `Never` leaves it closed. */
  lemma CloseEventReopens(s: State, delay: Delay)
    requires Shut(s) && Good(s) && s.urlWorks
    ensures match delay
      case Now => WentDown(s, delay).ws == Real(Connecting)
      case In(_) =>
        var es := [WentClosed(delay), Timer(s.nextTimer)];
        MayRun(s, es) && After(s, es).ws == Real(Connecting)
      case Never => Shut(WentDown(s, delay))
  {
    hide MarksOk, NotWaiting;
    RousedByClose(s, delay);
    if delay.In? {
      DownLeavesOneTimer(s, delay);
      hide WentDown;
      TwoSteps(s, WentClosed(delay), Timer(s.nextTimer));
    }
  }

  /** With reconnectIn() as it is, the `close` event that close() itself brings about
      leaves the socket closed only if its code is 1008 or 1011. */
  lemma OwnCloseEventReopens(s: State, code: int)
    requires Shut(s) && Good(s) && s.urlWorks
    ensures var delay := DefaultDelay(code, s.closed + 1);
      && (Shut(WentDown(s, delay)) <==> code == 1008 || code == 1011)
      && (code != 1008 && code != 1011 ==>
            MayRun(s, [WentClosed(delay), Timer(s.nextTimer)])
            && After(s, [WentClosed(delay), Timer(s.nextTimer)]).ws == Real(Connecting))
  {
    hide MarksOk, NotWaiting, WentDown, Next, MayHappen, Shut, MayRun, After;
    RousedByClose(s, DefaultDelay(code, s.closed + 1));
    CloseEventReopens(s, DefaultDelay(code, s.closed + 1));
  }

  lemma TwoSteps(s: State, a: Event, b: Event)
    requires MayHappen(s, a) && MayHappen(Next(s, a), b)
    ensures MayRun(s, [a, b]) && After(s, [a, b]) == Next(Next(s, a), b)
  {
    hide Next, MayHappen;
    var s1 := Next(s, a);
    var s2 := Next(s1, b);
    assert [b][1..] == [] && MayRun(s2, []) && MayRun(s1, [b]) && After(s1, [b]) == s2;
    assert [a, b][1..] == [b] && MayRun(s, [a, b]);
  }

  /** From the start: open(), close(), the `close` event of the old WebSocket and
      the timer it arms end with a new WebSocket. */
  lemma CloseDoesNotLast()
    ensures var es := [SetUrl(true), OpenCall, CloseCall, WentClosed(DefaultDelay(1000, 1)), Timer(2)];
      MayRun(START, es) && After(START, es).ws == Real(Connecting)
  {
    var s3 := START.(urlWorks := true, keepClosed := true, nextTimer := 2);
    OpenThenClose();
    ThreeSteps(START, SetUrl(true), OpenCall, CloseCall);
    OwnCloseEventReopens(s3, 1000);
    hide Next, MayHappen;
    AfterConcat(START, [SetUrl(true), OpenCall, CloseCall], [WentClosed(DefaultDelay(1000, 1)), Timer(2)]);
    assert [SetUrl(true), OpenCall, CloseCall] + [WentClosed(DefaultDelay(1000, 1)), Timer(2)]
        == [SetUrl(true), OpenCall, CloseCall, WentClosed(DefaultDelay(1000, 1)), Timer(2)];
  }

  lemma OpenThenClose()
    ensures var s1 := Next(START, SetUrl(true));
      var s2 := Next(s1, OpenCall);
      MayHappen(START, SetUrl(true)) && MayHappen(s1, OpenCall) && MayHappen(s2, CloseCall)
      && Next(s2, CloseCall) == START.(urlWorks := true, keepClosed := true, nextTimer := 2)
      && Good(Next(s2, CloseCall))
  {
    var s3 := Next(Next(Next(START, SetUrl(true)), OpenCall), CloseCall);
    assert s3.timers == {};
  }

  lemma {:induction false} AfterConcat(s: State, a: seq<Event>, b: seq<Event>)
    requires MayRun(s, a) && MayRun(After(s, a), b)
    ensures MayRun(s, a + b) && After(s, a + b) == After(After(s, a), b)
    decreases |a|
  {
    hide Next, MayHappen;
    if a == [] {
      assert a + b == b;
    } else {
      AfterConcat(Next(s, a[0]), a[1..], b);
      assert (a + b)[1..] == a[1..] + b;
    }
  }

  /** And if a new WebSocket was opened meanwhile, that late `close` event takes it
      away although it works. */
  lemma LateCloseDropsTheNewSocket()
    ensures var es := [SetUrl(true), OpenCall, CloseCall, OpenCall, CameOpen(false)];
      MayRun(START, es) && After(START, es).ws == Real(Open)
      && MayRun(START, es + [WentClosed(DefaultDelay(1000, 1))])
      && After(START, es + [WentClosed(DefaultDelay(1000, 1))]).ws == Placeholder
  {
    var close, late := [SetUrl(true), OpenCall, CloseCall], WentClosed(DefaultDelay(1000, 1));
    OpenThenClose();
    ThreeSteps(START, SetUrl(true), OpenCall, CloseCall);
    var shut := START.(urlWorks := true, keepClosed := true, nextTimer := 2);
    OpensAndDrops(shut, late);
    var es := close + [OpenCall, CameOpen(false)];
    assert es == [SetUrl(true), OpenCall, CloseCall, OpenCall, CameOpen(false)];
    hide Next, MayHappen;
    TwoSteps(shut, OpenCall, CameOpen(false));
    AfterConcat(START, close, [OpenCall, CameOpen(false)]);
    var open := After(START, es);
    assert [late][1..] == [] && MayRun(Next(open, late), []) && MayRun(open, [late])
      && After(open, [late]) == Next(open, late);
    AfterConcat(START, es, [late]);
  }

  lemma OpensAndDrops(s: State, late: Event)
    requires s.ws == Placeholder && s.urlWorks && late.WentClosed? && late.delay.In?
    ensures var s1 := Next(s, OpenCall);
      MayHappen(s, OpenCall) && MayHappen(s1, CameOpen(false))
      && Next(s1, CameOpen(false)).ws == Real(Open) && Next(Next(s1, CameOpen(false)), late).ws == Placeholder
      && MayHappen(Next(s1, CameOpen(false)), late)
  {
    hide NotWaiting, Awaiting;
  }
}
