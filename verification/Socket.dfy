/** The frontend's socket: a queue of messages to send, the messages waiting for
    a reply, the current WebSocket and the timers that reopen it. The methods are
    the handlers of assets/js/Socket.js; each is proved against a function on the
    abstract state. */
module Socket {
  import opened Text

  /** A message as the caller passed it (`body`: every key but the id), with the
      marks it gets when it is written. */
  datatype Message = Message(id: string, body: map<string, string>, waitingForResponse: Option<bool>, stamped: bool) {
    /** Object.keys(msg).length */
    function KeyCount(): nat {
      1 + |body| + (if waitingForResponse.Some? then 1 else 0) + (if stamped then 1 else 0)
    }
  }

  datatype Ready = Connecting | Open | Closing | Closed

  /** Only a real WebSocket has a `close` method; the placeholder is closed. */
  datatype WebSocket = Placeholder | Real(ready: Ready) {
    predicate IsOpen() { this == Real(Open) }
  }

  /** What reconnectIn() may answer. */
  datatype Delay = In(ms: nat) | Now | Never

  datatype State = State(
    queue: seq<Message>,
    waiting: map<string, Message>,
    ws: WebSocket,
    lastId: nat,
    closed: nat,
    keepClosed: bool,
    urlWorks: bool,
    reconnectTid: Option<nat>,
    keepaliveTid: Option<nat>,
    timers: set<nat>,
    nextTimer: nat,
    wire: seq<Message>)

  /** String(n) */
  function Decimal(n: nat): string {
    if n < 10 then ['0' + n as char] else Decimal(n / 10) + ['0' + (n % 10) as char]
  }

  /** An answer of 1008 or 1011 ends the reconnecting; otherwise it waits longer
      after every close in a row. */
  function DefaultDelay(code: int, closed: nat): Delay {
    if code == 1008 || code == 1011 then Never
    else In(if closed <= 1 then 1000 else if closed > 5 then 10000 else 1000 * (closed * 2))
  }

  function Written(m: Message): Message { m.(waitingForResponse := Some(true), stamped := true) }

  /** The messages of a queue, put among the waiting ones in order. */
  function Awaiting(waiting: map<string, Message>, queue: seq<Message>): map<string, Message>
    decreases queue
  {
    if queue == [] then waiting else Awaiting(waiting[queue[0].id := Written(queue[0])], queue[1..])
  }

  function Dequeued(s: State): State {
    if !s.ws.IsOpen() then s
    else s.(queue := [], waiting := Awaiting(s.waiting, s.queue), wire := s.wire + s.queue)
  }

  function Cleared(timers: set<nat>, tid: Option<nat>): set<nat> {
    if tid.Some? then timers - {tid.value} else timers
  }

  function ReconnectStopped(s: State): State {
    s.(reconnectTid := None, timers := Cleared(s.timers, s.reconnectTid))
  }

  function KeepAliveStopped(s: State): State {
    s.(keepaliveTid := None, timers := Cleared(s.timers, s.keepaliveTid))
  }

  function KeepAliveStarted(s: State): State {
    var t := KeepAliveStopped(s);
    t.(keepaliveTid := Some(t.nextTimer), timers := t.timers + {t.nextTimer}, nextTimer := t.nextTimer + 1)
  }

  function Opened(s: State): State {
    if s.ws.Real? || !s.urlWorks then s
    else ReconnectStopped(KeepAliveStarted(s.(ws := Real(Connecting), keepClosed := false)))
  }

  function ReconnectStarted(s: State, delay: Delay): State {
    var t := ReconnectStopped(s);
    match delay
    case Now => Opened(t)
    case Never => t.(keepClosed := true)
    case In(_) =>
      t.(reconnectTid := Some(t.nextTimer), timers := t.timers + {t.nextTimer}, nextTimer := t.nextTimer + 1)
  }

  /** The id a message gets, and the counter after that. */
  function IdFor(given: string, lastId: nat): (string, nat) {
    if given != "" then (given, lastId) else (Decimal(lastId + 1), lastId + 1)
  }

  function Sent(s: State, given: string, body: map<string, string>): State {
    var (id, lastId) := IdFor(given, s.lastId);
    Dequeued(Opened(s.(queue := s.queue + [Message(id, body, None, false)], lastId := lastId)))
  }

  function ClosedByUser(s: State): State {
    ReconnectStopped(KeepAliveStopped(s.(keepClosed := true))).(ws := Placeholder)
  }

  function NotWaiting(waiting: map<string, Message>): map<string, Message> {
    map id | id in waiting && waiting[id].KeyCount() > 1 :: waiting[id].(waitingForResponse := Some(false))
  }

  /** The same with some messages still to be looked at. */
  ghost function PartlyMarked(waiting: map<string, Message>, todo: set<string>): map<string, Message> {
    map id | id in waiting && (id in todo || waiting[id].KeyCount() > 1) ::
      if id in todo then waiting[id] else waiting[id].(waitingForResponse := Some(false))
  }

  function WentDown(s: State, delay: Delay): State {
    var dropped := KeepAliveStopped(s.(waiting := NotWaiting(s.waiting)));
    ReconnectStarted(dropped.(ws := Placeholder, closed := s.closed + 1), delay)
  }

  function CameUp(s: State): State { Dequeued(s.(closed := 0)) }

  function Answered(s: State, id: string, errors: bool): State {
    s.(waiting := if id != "" then s.waiting - {id} else if errors then map[] else s.waiting)
  }

  /** A timer that runs out is no longer armed, but its id is still remembered. */
  function TimedOut(s: State, tid: nat): State { Opened(s.(timers := s.timers - {tid})) }

  class Socket {
    var queue: seq<Message>
    var waiting: map<string, Message>
    var ws: WebSocket
    var lastId: nat
    var closed: nat
    var keepClosed: bool
    var urlWorks: bool // there is a URL and the WebSocket constructor accepts it
    var reconnectTid: Option<nat>
    var keepaliveTid: Option<nat>
    var timers: set<nat> // armed in the browser
    var nextTimer: nat
    ghost var wire: seq<Message> // written to any WebSocket so far

    ghost function Abs(): State
      reads this
    {
      State(queue, waiting, ws, lastId, closed, keepClosed, urlWorks, reconnectTid, keepaliveTid, timers,
        nextTimer, wire)
    }

    constructor ()
      ensures Abs() == State([], map[], Placeholder, 0, 0, true, false, None, None, {}, 1, [])
    {
      queue, waiting, ws, lastId, closed, keepClosed, urlWorks := [], map[], Placeholder, 0, 0, true, false;
      reconnectTid, keepaliveTid, timers, nextTimer, wire := None, None, {}, 1, [];
    }

    method ReconnectStop()
      modifies this
      ensures Abs() == ReconnectStopped(old(Abs()))
    {
      if reconnectTid.Some? { timers := timers - {reconnectTid.value}; }
      reconnectTid := None;
    }

    method KeepAliveStop()
      modifies this
      ensures Abs() == KeepAliveStopped(old(Abs()))
    {
      if keepaliveTid.Some? { timers := timers - {keepaliveTid.value}; }
      keepaliveTid := None;
    }

    method SetTimer() returns (tid: nat)
      modifies this`timers, this`nextTimer
      ensures tid == old(nextTimer) && timers == old(timers) + {tid} && nextTimer == tid + 1
    {
      tid := nextTimer;
      timers, nextTimer := timers + {tid}, nextTimer + 1;
    }

    method KeepAliveStart()
      modifies this
      ensures Abs() == KeepAliveStarted(old(Abs()))
    {
      KeepAliveStop();
      var tid := SetTimer();
      keepaliveTid := Some(tid);
    }

    method Open()
      modifies this
      ensures Abs() == Opened(old(Abs()))
    {
      if ws.Real? || !urlWorks { return; }
      ws := Real(Connecting);
      keepClosed := false;
      KeepAliveStart();
      ReconnectStop();
    }

    method Close()
      modifies this
      ensures Abs() == ClosedByUser(old(Abs()))
    {
      keepClosed := true;
      KeepAliveStop();
      ReconnectStop();
      ws := Placeholder;
    }

    method Dequeue()
      modifies this
      ensures Abs() == Dequeued(old(Abs()))
    {
      while queue != []
        invariant ws == old(ws)
        invariant !ws.IsOpen() ==> Abs() == old(Abs())
        invariant Abs() == old(Abs()).(queue := queue, waiting := waiting, wire := wire)
        invariant wire + queue == old(wire) + old(queue)
        invariant Awaiting(waiting, queue) == Awaiting(old(waiting), old(queue))
        decreases |queue|
      {
        if !ws.IsOpen() { return; }
        var msg := queue[0];
        queue := queue[1..];
        wire := wire + [msg];
        msg := msg.(waitingForResponse := Some(true));
        if !msg.stamped { msg := msg.(stamped := true); }
        waiting := waiting[msg.id := msg];
      }
      assert wire + [] == wire;
    }

    method Send(given: string, body: map<string, string>)
      modifies this
      ensures Abs() == Sent(old(Abs()), given, body)
    {
      var id := given;
      if id == "" {
        lastId := lastId + 1;
        id := Decimal(lastId);
      }
      queue := queue + [Message(id, body, None, false)];
      Open();
      Dequeue();
    }

    method DeleteWaitingMessage(id: string)
      modifies this`waiting
      ensures Abs() == old(Abs()).(waiting := old(waiting) - {id})
    {
      waiting := waiting - {id};
    }

    method ReconnectStart(delay: Delay)
      modifies this
      ensures Abs() == ReconnectStarted(old(Abs()), delay)
    {
      ReconnectStop();
      match delay
      case Now => Open();
      case Never => keepClosed := true;
      case In(_) =>
        var tid := SetTimer();
        reconnectTid := Some(tid);
    }

    /** The loop over the waiting messages. */
    method MarkDropped()
      modifies this`waiting
      ensures waiting == NotWaiting(old(waiting))
    {
      var todo := waiting.Keys;
      ghost var was := waiting;
      assert waiting == PartlyMarked(was, todo);
      while todo != {}
        invariant todo <= was.Keys && waiting == PartlyMarked(was, todo)
        decreases todo
      {
        var id :| id in todo;
        var msg := waiting[id];
        if msg.KeyCount() <= 1 {
          waiting := waiting - {id};
        } else {
          waiting := waiting[id := msg.(waitingForResponse := Some(false))];
        }
        todo := todo - {id};
      }
    }

    /** The delay is what reconnectIn() answers, which a subclass may override. */
    method OnClose(delay: Delay)
      modifies this
      ensures Abs() == WentDown(old(Abs()), delay)
    {
      hide NotWaiting, ReconnectStarted;
      MarkDropped();
      KeepAliveStop();
      ws := Placeholder;
      closed := closed + 1;
      ReconnectStart(delay);
    }

    method OnMessage(id: string, errors: bool)
      modifies this`waiting
      ensures Abs() == Answered(old(Abs()), id, errors)
    {
      if id != "" {
        waiting := waiting - {id};
      }
      if !errors || id != "" { return; }
      waiting := map[];
    }

    method OnOpen()
      modifies this
      ensures Abs() == CameUp(old(Abs()))
    {
      closed := 0;
      Dequeue();
    }

    /** The callback of a reconnect timer. */
    method OnTimer(tid: nat)
      requires tid in timers
      modifies this
      ensures Abs() == TimedOut(old(Abs()), tid)
    {
      timers := timers - {tid};
      Open();
    }
  }
}
