/** Paging back through a conversation: the response cursor that
    `buildMessagesResponse` derives from a `LoadMessages` result, and a client
    that keeps asking with the cursor it was given. */
module Paging {
  import opened Calendar
  import opened Text
  import opened LogFormat
  import opened LogReader
  import opened History
  import opened HistoryLaws

  /** Cursors are Unix seconds. */
  datatype Response = Response(messages: seq<Message>, end: bool, before: Option<int>, after: Option<int>)

  /** A cursor only leads to further messages, and forward only a forward query. */
  function BuildMessagesResponse(result: Result, query: Query): (r: Response)
    ensures r.messages == result.messages && r.end == result.end
    ensures r.before.Some? || r.after.Some? ==> !r.end && r.messages != []
    ensures r.after.Some? ==> query.after.Some?
  {
    var ms := result.messages;
    var more := ms != [] && !result.end;
    Response(ms, result.end,
             if more then Some(ms[0].ts) else None,
             if more && query.after.Some? then Some(ms[|ms| - 1].ts) else None)
  }

  /** The request for what came before a time. */
  function BackQuery(cursor: Time, limit: int): Query { Query(Some(cursor), None, None, limit) }

  function BackWindow(cursor: Time): (w: Window)
    requires cursor.Valid()
    ensures w.Valid()
  {
    Window(cursor.AddYears(-1), cursor, false)
  }

  lemma AskedBack(files: Files, cursor: Time, now: Time, limit: int)
    requires cursor.Valid() && now.Valid()
    ensures BackQuery(cursor, limit).Valid()
    ensures Asked(files, BackQuery(cursor, limit), now) == Load(files, BackWindow(cursor), EffectiveLimit(limit))
  {
    hide Load;
  }

  // ---------------------------------------------------------------------
  // The client
  // ---------------------------------------------------------------------

  /** Whatever the cursor, a page holds only messages of the store, strictly
      inside the window. */
  lemma {:induction false} WalkInRange(files: Files, w: Window, limit: nat, cursor: Time, found: seq<Message>, lo: int)
    requires ValidFiles(files) && w.Valid() && !w.forward && cursor.Valid() && |found| <= limit
    requires forall k :: k in files ==> lo <= k
    requires forall m :: m in found ==> InRange(m, w.after.Instant(), w.before.Instant()) && MonthStart(lo) <= m.ts
    ensures forall m :: m in Walk(files, w, limit, cursor, found) ==>
      InRange(m, w.after.Instant(), w.before.Instant()) && MonthStart(lo) <= m.ts
    decreases cursor.month - w.after.month, cursor.day
  {
    hide Entries, Lines, Within, InWindow, FirstDay, ValidFiles, InRange;
    if InWindow(w, cursor) {
      var page := Page(files, w, limit + 1 - |found|, cursor.month);
      PageInRange(files, w, limit + 1 - |found|, cursor.month, lo);
      if |page + found| <= limit {
        WalkTerminates(w, cursor);
        WalkInRange(files, w, limit, cursor.AddMonths(-1), page + found, lo);
      }
    }
  }

  lemma PageInRange(files: Files, w: Window, n: int, month: int, lo: int)
    requires ValidFiles(files) && w.Valid() && !w.forward
    requires forall k :: k in files ==> lo <= k
    ensures forall m :: m in Page(files, w, n, month) ==>
      InRange(m, w.after.Instant(), w.before.Instant()) && MonthStart(lo) <= m.ts
  {
    hide Entries, Lines, Within, InRange;
    if month in files {
      var ms := Entries(Lines(files[month]));
      WithinIsInRange(ms, w.after.Instant(), w.before.Instant());
      if lo < month { MonthsIncrease(lo, month); }
      assert FileOk(files[month], month);
    }
  }

  /** Everything a client receives, oldest first, that starts at `cursor` and
      repeats with the `before` cursor of each response until there is none.
      It terminates from every cursor. */
  ghost function PageBack(files: Files, cursor: Time, now: Time, limit: int, lo: int): seq<Message>
    requires ValidFiles(files) && cursor.Valid() && now.Valid() && forall k :: k in files ==> lo <= k
    decreases cursor.Instant() - MonthStart(lo) * SECOND
  {
    AskedBack(files, cursor, now, limit);
    var query := BackQuery(cursor, limit);
    var response := BuildMessagesResponse(Asked(files, query, now), query);
    if response.before.None? then response.messages
    else
      WalkInRange(files, BackWindow(cursor), EffectiveLimit(limit), cursor, [], lo);
      PageBack(files, FromUnix(response.before.value), now, limit, lo) + response.messages
  }

  // ---------------------------------------------------------------------
  // The flat view
  // ---------------------------------------------------------------------

  /** The number of messages with an earlier time stamp, in a sorted log. */
  function Below(log: seq<Message>, ts: int): (n: nat)
    ensures n <= |log|
    ensures n > 0 ==> log[n - 1].ts < ts
    ensures n < |log| && Sorted(log) ==> ts <= log[n].ts
  {
    if log == [] || log[|log| - 1].ts < ts then |log| else Below(log[..|log| - 1], ts)
  }

  /** The positions from..from + n. */
  function Span(from: nat, n: nat): (r: seq<nat>)
    ensures |r| == n && forall i :: 0 <= i < n ==> r[i] == from + i
  {
    seq(n, i => from + i)
  }

  lemma SpanConcat(p: nat, a: nat, b: nat)
    ensures Span(p, a) + Span(p + a, b) == Span(p, a + b)
  {
  }

  /** Strictly growing positions of lo..hi. */
  ghost predicate Growing(ps: seq<nat>, lo: nat, hi: nat) {
    && (forall i :: 0 <= i < |ps| ==> lo <= ps[i] < hi)
    && forall i, j :: 0 <= i < j < |ps| ==> ps[i] < ps[j]
  }

  lemma GrowingConcat(a: seq<nat>, b: seq<nat>, lo: nat, mid: nat, hi: nat)
    requires Growing(a, lo, mid) && Growing(b, mid, hi) && lo <= mid <= hi
    ensures Growing(a + b, lo, hi)
  {
    var ps := a + b;
    forall i, j | 0 <= i < j < |ps| ensures ps[i] < ps[j] {
      if i < |a| <= j { assert a[i] < mid <= b[j - |a|]; }
    }
  }

  /** The messages at growing positions. */
  ghost function At(log: seq<Message>, ps: seq<nat>): (r: seq<Message>)
    requires Growing(ps, 0, |log|)
    ensures |r| == |ps|
  {
    seq(|ps|, i requires 0 <= i < |ps| => log[ps[i]])
  }

  lemma AtConcat(log: seq<Message>, a: seq<nat>, b: seq<nat>)
    requires Growing(a, 0, |log|) && Growing(b, 0, |log|) && Growing(a + b, 0, |log|)
    ensures At(log, a + b) == At(log, a) + At(log, b)
  {
    hide Growing;
    assert forall i :: 0 <= i < |a + b| ==> (a + b)[i] == if i < |a| then a[i] else b[i - |a|];
    Inside(log, a + b);
    Inside(log, a);
    Inside(log, b);
  }

  lemma Inside(log: seq<Message>, ps: seq<nat>)
    requires Growing(ps, 0, |log|)
    ensures forall i :: 0 <= i < |ps| ==> ps[i] < |log|
  {
  }

  lemma AtSpan(log: seq<Message>, from: nat, n: nat)
    requires from + n <= |log|
    ensures Growing(Span(from, n), 0, |log|) && At(log, Span(from, n)) == log[from..from + n]
  {
  }

  /** The positions a client visits when log[..q] lies before its cursor. */
  function Positions(log: seq<Message>, q: nat, limit: nat): (r: seq<nat>)
    requires q <= |log| && limit >= 1 && Sorted(log)
    decreases q
  {
    if q <= limit then Span(0, q)
    else
      BelowIsEarlier(log, q - limit);
      Positions(log, Below(log, log[q - limit].ts), limit) + Span(q - limit, limit)
  }

  lemma PositionsStep(log: seq<Message>, q: nat, limit: nat)
    requires limit < q <= |log| && limit >= 1 && Sorted(log)
    ensures var n := Below(log, log[q - limit].ts);
      n <= q - limit && Positions(log, q, limit) == Positions(log, n, limit) + Span(q - limit, limit)
  {
    BelowIsEarlier(log, q - limit);
  }

  lemma BelowIsEarlier(log: seq<Message>, j: nat)
    requires Sorted(log) && j < |log|
    ensures Below(log, log[j].ts) <= j
    ensures j > 0 ==> (Below(log, log[j].ts) == j <==> log[j - 1].ts < log[j].ts)
  {
    var n := Below(log, log[j].ts);
    if n < j {
      assert log[n].ts <= log[j - 1].ts;
    }
  }

  /** No position is visited twice, in order, whatever the time stamps. */
  lemma {:induction false} NeverTwice(log: seq<Message>, q: nat, limit: nat)
    requires q <= |log| && limit >= 1 && Sorted(log)
    ensures Growing(Positions(log, q, limit), 0, q) && |Positions(log, q, limit)| <= q
    decreases q
  {
    if q > limit {
      PositionsStep(log, q, limit);
      hide Sorted, Below, Positions;
      var n := Below(log, log[q - limit].ts);
      NeverTwice(log, n, limit);
      Wider(Positions(log, n, limit), n, q - limit);
      GrowingConcat(Positions(log, n, limit), Span(q - limit, limit), 0, q - limit, q);
    } else {
      hide Sorted;
    }
  }

  lemma Wider(ps: seq<nat>, n: nat, m: nat)
    requires Growing(ps, 0, n) && n <= m
    ensures Growing(ps, 0, m)
  {
  }

  /** No page boundary falls between two messages of the same second. */
  predicate SharpBoundaries(log: seq<Message>, q: nat, limit: nat)
    requires q <= |log| && limit >= 1
    decreases q
  {
    q <= limit || (log[q - limit - 1].ts < log[q - limit].ts && SharpBoundaries(log, q - limit, limit))
  }

  lemma SharpPage(log: seq<Message>, q: nat, limit: nat)
    requires limit < q <= |log| && limit >= 1 && Sorted(log)
    ensures var n := Below(log, log[q - limit].ts);
      SharpBoundaries(log, q, limit) <==> n == q - limit && SharpBoundaries(log, n, limit)
  {
    BelowIsEarlier(log, q - limit);
  }

  lemma VisitedLength(log: seq<Message>, q: nat, limit: nat)
    requires q <= |log| && limit >= 1 && Sorted(log)
    ensures |Positions(log, q, limit)| <= q
  {
    NeverTwice(log, q, limit);
  }

  /** Every message is visited exactly when no boundary splits a second. */
  lemma {:induction false} AllVisited(log: seq<Message>, q: nat, limit: nat)
    requires q <= |log| && limit >= 1 && Sorted(log)
    ensures |Positions(log, q, limit)| == q <==> SharpBoundaries(log, q, limit)
    ensures SharpBoundaries(log, q, limit) ==> Positions(log, q, limit) == Span(0, q)
    decreases q
  {
    if q > limit {
      PositionsStep(log, q, limit);
      SharpPage(log, q, limit);
      hide Sorted, Below, Positions, SharpBoundaries, Span;
      var n := Below(log, log[q - limit].ts);
      AllVisited(log, n, limit);
      VisitedLength(log, n, limit);
      SpanConcat(0, q - limit, limit);
    } else {
      hide Sorted;
    }
  }

  /** The messages at the positions visited. */
  ghost function Received(log: seq<Message>, q: nat, limit: nat): seq<Message>
    requires q <= |log| && limit >= 1 && Sorted(log)
  {
    NeverTwice(log, q, limit);
    Wider(Positions(log, q, limit), q, |log|);
    At(log, Positions(log, q, limit))
  }

  lemma ReceivedIs(log: seq<Message>, q: nat, limit: nat)
    requires q <= |log| && limit >= 1 && Sorted(log)
    ensures Growing(Positions(log, q, limit), 0, |log|) && Received(log, q, limit) == At(log, Positions(log, q, limit))
  {
    hide Sorted, Positions, Growing, At;
    NeverTwice(log, q, limit);
    Wider(Positions(log, q, limit), q, |log|);
  }

  lemma LastReceived(log: seq<Message>, q: nat, limit: nat)
    requires q <= |log| && q <= limit && limit >= 1 && Sorted(log)
    ensures Received(log, q, limit) == log[..q]
  {
    hide Sorted, Growing, At;
    assert Positions(log, q, limit) == Span(0, q);
    hide Positions;
    AtSpan(log, 0, q);
  }

  lemma AtPage(log: seq<Message>, all: seq<nat>, ps: seq<nat>, from: nat, n: nat)
    requires from + n <= |log| && all == ps + Span(from, n)
    requires Growing(all, 0, |log|) && Growing(ps, 0, |log|)
    ensures At(log, all) == At(log, ps) + log[from..from + n]
  {
    hide Growing, At, Span;
    AtSpan(log, from, n);
    AtConcat(log, ps, Span(from, n));
  }

  lemma ReceivedPage(log: seq<Message>, q: nat, limit: nat)
    requires limit < q <= |log| && limit >= 1 && Sorted(log)
    ensures var n := Below(log, log[q - limit].ts);
      n < q && Received(log, q, limit) == Received(log, n, limit) + log[q - limit..q]
  {
    hide Sorted, Below, Positions, Growing, At, Span, Received;
    var n, from := Below(log, log[q - limit].ts), q - limit;
    PositionsStep(log, q, limit);
    ReceivedIs(log, q, limit);
    ReceivedIs(log, n, limit);
    AtPage(log, Positions(log, q, limit), Positions(log, n, limit), from, limit);
  }

  lemma ReceivedAll(log: seq<Message>, q: nat, limit: nat)
    requires q <= |log| && limit >= 1 && Sorted(log)
    ensures Received(log, q, limit) == log[..q] <==> SharpBoundaries(log, q, limit)
  {
    hide Positions, SharpBoundaries, Sorted, Growing, At;
    NeverTwice(log, q, limit);
    Wider(Positions(log, q, limit), q, |log|);
    AllVisited(log, q, limit);
    AtSpan(log, 0, q);
  }

  // ---------------------------------------------------------------------
  // One request on the flat log
  // ---------------------------------------------------------------------

  /** When the whole log is younger than the window, a filter is a prefix. */
  lemma {:induction false} WithinIsPrefix(log: seq<Message>, after: int, cursor: int, q: nat)
    requires q <= |log|
    requires forall i :: 0 <= i < |log| ==> after < log[i].ts * SECOND
    requires forall i :: 0 <= i < |log| ==> (i < q <==> log[i].ts * SECOND < cursor)
    ensures Within(log, after, cursor) == log[..q]
  {
    if log != [] {
      var n := if q == 0 then 0 else q - 1;
      var rest := log[1..];
      assert forall i :: 0 <= i < |rest| ==> rest[i] == log[i + 1];
      if q > 0 {
        WithinIsPrefix(rest, after, cursor, q - 1);
        assert log[..q] == [log[0]] + rest[..q - 1];
      } else {
        WithinIsPrefix(rest, after, cursor, 0);
      }
    }
  }

  /** A cursor on a day that every month of its year back has, less than a year
      after the first message. */
  ghost predicate GoodCursor(cursor: Time, log: seq<Message>)
    requires cursor.Valid()
  {
    Safe(BackWindow(cursor)) && forall m :: m in log ==> cursor.AddYears(-1).Instant() < m.ts * SECOND
  }

  lemma OnePage(files: Files, lo: int, hi: int, cursor: Time, q: nat, limit: nat)
    requires ValidFiles(files) && Covers(files, lo, hi) && lo <= hi && cursor.Valid() && limit >= 1
    requires var log := AllMessages(files, lo, hi);
      && GoodCursor(cursor, log) && q <= |log|
      && forall i :: 0 <= i < |log| ==> (i < q <==> log[i].ts * SECOND < cursor.Instant())
    ensures Load(files, BackWindow(cursor), limit)
      == Result(LastN(AllMessages(files, lo, hi)[..q], limit), q <= limit)
  {
    hide Entries, Lines, ValidFiles, AllMessages, Within, Load, Safe;
    var log, w := AllMessages(files, lo, hi), BackWindow(cursor);
    LoadIsFlat(files, lo, hi, w, limit);
    forall i | 0 <= i < |log| ensures w.after.Instant() < log[i].ts * SECOND {
      assert log[i] in log;
    }
    WithinIsPrefix(log, w.after.Instant(), cursor.Instant(), q);
  }

  /** Every cursor the client will use is a good one. */
  ghost predicate GoodCursors(log: seq<Message>, q: nat, limit: nat)
    requires q <= |log| && limit >= 1 && Sorted(log)
    decreases q
  {
    BelowIsEarlierAll(log);
    q <= limit ||
    (GoodCursor(FromUnix(log[q - limit].ts), log) && GoodCursors(log, Below(log, log[q - limit].ts), limit))
  }

  lemma BelowIsEarlierAll(log: seq<Message>)
    requires Sorted(log)
    ensures forall j :: 0 <= j < |log| ==> Below(log, log[j].ts) <= j
  {
    forall j | 0 <= j < |log| ensures Below(log, log[j].ts) <= j {
      BelowIsEarlier(log, j);
    }
  }

  lemma {:induction false} PageBackIs(files: Files, lo: int, hi: int, cursor: Time, now: Time, q: nat, limit: int)
    requires ValidFiles(files) && Covers(files, lo, hi) && lo <= hi && cursor.Valid() && now.Valid()
    requires var log, n := Log(files, lo, hi), if 1 <= limit <= 200 then limit else 60;
      && GoodCursor(cursor, log) && q <= |log| && GoodCursors(log, q, n)
      && forall i :: 0 <= i < |log| ==> (i < q <==> log[i].ts * SECOND < cursor.Instant())
    ensures PageBack(files, cursor, now, limit, lo)
      == Received(Log(files, lo, hi), q, if 1 <= limit <= 200 then limit else 60)
    decreases q
  {
    hide ValidFiles, AllMessages, Load, GoodCursor, GoodCursors, MonthStart, Sorted, Below, FromUnix, Log, Received;
    hide PageBack, Covers, BackWindow;
    Starts(files, lo, hi);
    var log := Log(files, lo, hi);
    var n := EffectiveLimit(limit);
    OnePage(files, lo, hi, cursor, q, n);
    Answer(files, cursor, now, limit, lo, log, q);
    if q <= n {
      LastReceived(log, q, n);
    } else {
      ReceivedPage(log, q, n);
      var first := log[q - n].ts;
      CursorsGoOn(log, q, n);
      BelowSplits(log, first);
      SecondOf(first);
      PageBackIs(files, lo, hi, FromUnix(first), now, Below(log, first), limit);
    }
  }

  lemma BelowSplits(log: seq<Message>, ts: int)
    requires Sorted(log)
    ensures forall i :: 0 <= i < |log| ==> (i < Below(log, ts) <==> log[i].ts * SECOND < ts * SECOND)
  {
    var n := Below(log, ts);
    forall i | 0 <= i < |log| ensures i < n <==> log[i].ts < ts {
      if i < n { assert i == n - 1 || log[i].ts <= log[n - 1].ts; }
      else { assert i == n || log[n].ts <= log[i].ts; }
    }
  }

  lemma CursorsGoOn(log: seq<Message>, q: nat, limit: nat)
    requires limit < q <= |log| && limit >= 1 && Sorted(log) && GoodCursors(log, q, limit)
    ensures var first := log[q - limit].ts;
      Below(log, first) < q && GoodCursor(FromUnix(first), log) && GoodCursors(log, Below(log, first), limit)
  {
    hide GoodCursor;
    BelowIsEarlierAll(log);
  }

  lemma SecondOf(ts: int)
    ensures FromUnix(ts).Valid() && FromUnix(ts).Instant() == ts * SECOND
  {
  }

  /** What the client makes of one answer. */
  lemma Answer(files: Files, cursor: Time, now: Time, limit: int, lo: int, log: seq<Message>, q: nat)
    requires ValidFiles(files) && cursor.Valid() && now.Valid() && forall k :: k in files ==> lo <= k
    requires var n := EffectiveLimit(limit);
      q <= |log| && Load(files, BackWindow(cursor), n) == Result(LastN(log[..q], n), q <= n)
    ensures var n := EffectiveLimit(limit);
      PageBack(files, cursor, now, limit, lo) ==
      if q <= n then log[..q] else PageBack(files, FromUnix(log[q - n].ts), now, limit, lo) + log[q - n..q]
  {
    hide ValidFiles, Load, MonthStart, FromUnix, BackWindow, Asked, EffectiveLimit;
    AskedBack(files, cursor, now, limit);
    var n := EffectiveLimit(limit);
    if q > n { assert log[..q][q - n..] == log[q - n..q]; }
  }

  lemma Starts(files: Files, lo: int, hi: int)
    requires Covers(files, lo, hi)
    ensures forall k :: k in files ==> lo <= k
  {
  }

  /** Paging back returns every message before the first cursor, each once and
      in order, exactly when no page boundary splits a second. */
  lemma PagingExact(files: Files, lo: int, hi: int, cursor: Time, now: Time, q: nat, limit: int)
    requires ValidFiles(files) && Covers(files, lo, hi) && lo <= hi && cursor.Valid() && now.Valid()
    requires var log, n := Log(files, lo, hi), if 1 <= limit <= 200 then limit else 60;
      && GoodCursor(cursor, log) && q <= |log| && GoodCursors(log, q, n)
      && forall i :: 0 <= i < |log| ==> (i < q <==> log[i].ts * SECOND < cursor.Instant())
    ensures var log, n := Log(files, lo, hi), if 1 <= limit <= 200 then limit else 60;
      PageBack(files, cursor, now, limit, lo) == log[..q] <==> SharpBoundaries(log, q, n)
  {
    hide ValidFiles, Log, PageBack, GoodCursor, GoodCursors;
    PageBackIs(files, lo, hi, cursor, now, q, limit);
    ReceivedAll(Log(files, lo, hi), q, if 1 <= limit <= 200 then limit else 60);
  }

  // ---------------------------------------------------------------------
  // Days 1 to 28, within a year
  // ---------------------------------------------------------------------

  /** What a caller can know: the messages lie within 365 days, none on a day that
      some month lacks. */
  ghost predicate OrdinaryLog(log: seq<Message>) {
    && (forall m :: m in log ==> FromUnix(m.ts).day <= 28)
    && forall m, n :: m in log && n in log ==> n.ts - m.ts < 365 * DAY_SECONDS
  }

  lemma OrdinaryCursor(cursor: Time, log: seq<Message>)
    requires cursor.Valid() && cursor.day <= 28
    requires forall m :: m in log ==> cursor.Instant() < (m.ts + 365 * DAY_SECONDS) * SECOND
    ensures GoodCursor(cursor, log)
  {
    hide FirstDay, Safe;
    OrdinaryIsSafe(cursor);
    YearIsLong(cursor.month);
    var year := cursor.AddYears(-1);
    assert year == Time(cursor.month - 12, cursor.day, cursor.nanos);
    assert year.Instant() + 365 * DAY_SECONDS * SECOND <= cursor.Instant();
  }

  lemma OrdinaryIsSafe(cursor: Time)
    requires cursor.Valid() && cursor.day <= 28
    ensures Safe(BackWindow(cursor))
  {
  }

  lemma {:induction false} OrdinaryCursors(log: seq<Message>, q: nat, limit: nat)
    requires q <= |log| && limit >= 1 && Sorted(log) && OrdinaryLog(log)
    ensures GoodCursors(log, q, limit)
    decreases q
  {
    hide GoodCursor, Sorted, FromUnix, Below;
    BelowIsEarlierAll(log);
    if q > limit {
      var first := log[q - limit];
      assert first in log;
      OrdinaryMessage(log, first);
      OrdinaryCursors(log, Below(log, first.ts), limit);
    }
  }

  lemma OrdinaryMessage(log: seq<Message>, first: Message)
    requires OrdinaryLog(log) && first in log
    ensures GoodCursor(FromUnix(first.ts), log)
  {
    hide GoodCursor, MonthStart;
    var cursor := FromUnix(first.ts);
    assert cursor.Instant() == first.ts * SECOND;
    hide FromUnix;
    OrdinaryCursor(cursor, log);
  }

  /** The law of paging under what a caller can check: a log within 365 days on
      days 1 to 28, and a first cursor on such a day, not a year past the log. */
  lemma PagingOrdinaryLogs(files: Files, lo: int, hi: int, cursor: Time, now: Time, q: nat, limit: int)
    requires ValidFiles(files) && Covers(files, lo, hi) && lo <= hi
    requires cursor.Valid() && now.Valid() && cursor.day <= 28
    requires var log := Log(files, lo, hi);
      && OrdinaryLog(log) && q <= |log|
      && (forall m :: m in log ==> cursor.Instant() < (m.ts + 365 * DAY_SECONDS) * SECOND)
      && forall i :: 0 <= i < |log| ==> (i < q <==> log[i].ts * SECOND < cursor.Instant())
    ensures var log, n := Log(files, lo, hi), if 1 <= limit <= 200 then limit else 60;
      PageBack(files, cursor, now, limit, lo) == log[..q] <==> SharpBoundaries(log, q, n)
  {
    hide Entries, Lines, ValidFiles, AllMessages, PageBack, GoodCursor, GoodCursors, OrdinaryLog, Sorted, FirstDay;
    OrdinaryCursor(cursor, Log(files, lo, hi));
    OrdinaryCursors(Log(files, lo, hi), q, if 1 <= limit <= 200 then limit else 60);
    PagingExact(files, lo, hi, cursor, now, q, limit);
  }
}
