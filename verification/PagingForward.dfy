/** A client that pages forward: it asks for what comes after a time and repeats
    with the `after` cursor of each response until there is none. */
module PagingForward {
  import opened Calendar
  import opened Text
  import opened LogFormat
  import opened LogReader
  import opened History
  import opened HistoryLaws
  import opened Paging

  /** The request for what came after a time. */
  function OnQuery(cursor: Time, limit: int): Query { Query(None, Some(cursor), None, limit) }

  /** Its window. */
  function Onwards(cursor: Time, now: Time): (w: Window)
    requires cursor.Valid() && now.Valid()
    ensures w.Valid() && w.forward && w.after == cursor
  {
    WindowOf(OnQuery(cursor, 0), now)
  }

  lemma AskedOn(files: Files, cursor: Time, now: Time, limit: int)
    requires cursor.Valid() && now.Valid()
    ensures OnQuery(cursor, limit).Valid()
    ensures Asked(files, OnQuery(cursor, limit), now) == Load(files, Onwards(cursor, now), EffectiveLimit(limit))
  {
    hide Load;
  }

  lemma PageInRangeForward(files: Files, w: Window, n: int, month: int, hi: int)
    requires ValidFiles(files) && w.Valid() && w.forward
    requires forall k :: k in files ==> k < hi
    ensures forall m :: m in Page(files, w, n, month) ==>
      InRange(m, w.after.Instant(), w.before.Instant()) && m.ts < MonthStart(hi)
  {
    hide Entries, Lines, Within, InRange, ReadForward;
    PageIsPart(files, w, n, month);
    WithinIsInRange(FileEntries(files, month), w.after.Instant(), w.before.Instant());
    if month in files {
      if month + 1 < hi { MonthsIncrease(month + 1, hi); }
      assert FileOk(files[month], month);
    }
  }

  /** Whatever the cursor, an answer holds only messages of the store, strictly
      inside the window. */
  lemma {:induction false} WalkInRangeForward(files: Files, w: Window, limit: nat, cursor: Time,
      found: seq<Message>, hi: int)
    requires ValidFiles(files) && w.Valid() && w.forward && cursor.Valid() && |found| <= limit
    requires forall k :: k in files ==> k < hi
    requires forall m :: m in found ==> InRange(m, w.after.Instant(), w.before.Instant()) && m.ts < MonthStart(hi)
    ensures forall m :: m in Walk(files, w, limit, cursor, found) ==>
      InRange(m, w.after.Instant(), w.before.Instant()) && m.ts < MonthStart(hi)
    decreases w.before.AddMonths(1).month - cursor.month
  {
    hide InWindow, FirstDay, ValidFiles, InRange, Page, Walk;
    if InWindow(w, cursor) {
      var page := Page(files, w, limit + 1 - |found|, cursor.month);
      PageInRangeForward(files, w, limit + 1 - |found|, cursor.month, hi);
      WalkStep(files, w, limit, cursor, found);
      if |found + page| <= limit {
        WalkTerminates(w, cursor);
        WalkInRangeForward(files, w, limit, cursor.AddMonths(1), found + page, hi);
      }
    } else {
      WalkEnd(files, w, limit, cursor, found);
    }
  }

  /** Everything the client receives, oldest first. It terminates from every cursor.
      The clock stands still meanwhile; it only matters to messages from the
      future. */
  ghost function PageOn(files: Files, cursor: Time, now: Time, limit: int, hi: int): seq<Message>
    requires ValidFiles(files) && cursor.Valid() && now.Valid() && forall k :: k in files ==> k < hi
    decreases MonthStart(hi) * SECOND - cursor.Instant()
  {
    AskedOn(files, cursor, now, limit);
    var query := OnQuery(cursor, limit);
    var response := BuildMessagesResponse(Asked(files, query, now), query);
    if response.after.None? then response.messages
    else
      WalkInRangeForward(files, Onwards(cursor, now), EffectiveLimit(limit), cursor, [], hi);
      response.messages + PageOn(files, FromUnix(response.after.value), now, limit, hi)
  }

  // ---------------------------------------------------------------------
  // The flat view
  // ---------------------------------------------------------------------

  /** The positions a client visits when log[..p] lies at or before its cursor. */
  function Visits(log: seq<Message>, p: nat, limit: nat): (r: seq<nat>)
    requires p <= |log| && limit >= 1 && Sorted(log)
    decreases |log| - p
  {
    if |log| - p <= limit then Span(p, |log| - p)
    else
      BeyondIsLater(log, p + limit - 1);
      Span(p, limit) + Visits(log, Below(log, log[p + limit - 1].ts + 1), limit)
  }

  lemma BeyondIsLater(log: seq<Message>, j: nat)
    requires Sorted(log) && j < |log|
    ensures j < Below(log, log[j].ts + 1)
    ensures j + 1 < |log| ==> (Below(log, log[j].ts + 1) == j + 1 <==> log[j].ts < log[j + 1].ts)
  {
    var n := Below(log, log[j].ts + 1);
    if j + 1 < n { assert log[j + 1].ts <= log[n - 1].ts; }
  }

  lemma VisitsStep(log: seq<Message>, p: nat, limit: nat)
    requires p + limit < |log| && limit >= 1 && Sorted(log)
    ensures var n := Below(log, log[p + limit - 1].ts + 1);
      p + limit <= n <= |log| && Visits(log, p, limit) == Span(p, limit) + Visits(log, n, limit)
  {
    BeyondIsLater(log, p + limit - 1);
  }

  /** No position is visited twice, in order, whatever the time stamps. */
  lemma {:induction false} NeverTwiceForward(log: seq<Message>, p: nat, limit: nat)
    requires p <= |log| && limit >= 1 && Sorted(log)
    ensures Growing(Visits(log, p, limit), p, |log|) && |Visits(log, p, limit)| <= |log| - p
    decreases |log| - p
  {
    if |log| - p > limit {
      VisitsStep(log, p, limit);
      hide Sorted, Below, Visits;
      var n := Below(log, log[p + limit - 1].ts + 1);
      NeverTwiceForward(log, n, limit);
      GrowingConcat(Span(p, limit), Visits(log, n, limit), p, n, |log|);
    } else {
      hide Sorted;
    }
  }

  /** No page boundary falls between two messages of the same second. */
  predicate SharpForward(log: seq<Message>, p: nat, limit: nat)
    requires p <= |log| && limit >= 1
    decreases |log| - p
  {
    |log| - p <= limit || (log[p + limit - 1].ts < log[p + limit].ts && SharpForward(log, p + limit, limit))
  }

  /** Every later message is visited exactly when no boundary splits a second. */
  lemma {:induction false} AllVisitedForward(log: seq<Message>, p: nat, limit: nat)
    requires p <= |log| && limit >= 1 && Sorted(log)
    ensures |Visits(log, p, limit)| == |log| - p <==> SharpForward(log, p, limit)
    ensures SharpForward(log, p, limit) ==> Visits(log, p, limit) == Span(p, |log| - p)
    decreases |log| - p
  {
    if |log| - p > limit {
      VisitsStep(log, p, limit);
      SharpStep(log, p, limit);
      hide Sorted, Below, Visits, SharpForward, Span;
      var n := Below(log, log[p + limit - 1].ts + 1);
      AllVisitedForward(log, n, limit);
      VisitsLeft(log, n, limit);
      SpanConcat(p, limit, |log| - p - limit);
    } else {
      hide Sorted;
    }
  }

  lemma VisitsLeft(log: seq<Message>, p: nat, limit: nat)
    requires p <= |log| && limit >= 1 && Sorted(log)
    ensures |Visits(log, p, limit)| <= |log| - p
  {
    NeverTwiceForward(log, p, limit);
  }

  lemma SharpStep(log: seq<Message>, p: nat, limit: nat)
    requires p + limit < |log| && limit >= 1 && Sorted(log)
    ensures var n := Below(log, log[p + limit - 1].ts + 1);
      SharpForward(log, p, limit) <==> n == p + limit && SharpForward(log, n, limit)
  {
    BeyondIsLater(log, p + limit - 1);
  }

  // ---------------------------------------------------------------------
  // One request on the flat log
  // ---------------------------------------------------------------------

  /** Filtering from a time on leaves a suffix when the window ends after the log. */
  lemma {:induction false} WithinIsSuffix(log: seq<Message>, cursor: int, before: int, p: nat)
    requires p <= |log|
    requires forall i :: 0 <= i < |log| ==> log[i].ts * SECOND < before
    requires forall i :: 0 <= i < |log| ==> (i < p <==> log[i].ts * SECOND <= cursor)
    ensures Within(log, cursor, before) == log[p..]
  {
    if log != [] {
      var rest := log[1..];
      assert forall i :: 0 <= i < |rest| ==> rest[i] == log[i + 1];
      if p > 0 {
        WithinIsSuffix(rest, cursor, before, p - 1);
        assert log[p..] == rest[p - 1..];
      } else {
        WithinIsSuffix(rest, cursor, before, 0);
        assert log[0..] == [log[0]] + rest[0..];
      }
    }
  }

  /** A cursor on a day that every later month up to the end of its window has, and
      a log that ends inside the window. */
  ghost predicate GoodStart(cursor: Time, now: Time, log: seq<Message>)
    requires cursor.Valid() && now.Valid()
  {
    Safe(Onwards(cursor, now)) && forall m :: m in log ==> m.ts * SECOND < Onwards(cursor, now).before.Instant()
  }

  lemma OnePageForward(files: Files, lo: int, hi: int, cursor: Time, now: Time, p: nat, limit: nat)
    requires ValidFiles(files) && AllReadable(files) && Covers(files, lo, hi) && lo <= hi
    requires cursor.Valid() && now.Valid() && limit >= 1
    requires var log := Log(files, lo, hi);
      && GoodStart(cursor, now, log) && p <= |log|
      && forall i :: 0 <= i < |log| ==> (i < p <==> log[i].ts * SECOND <= cursor.Instant())
    ensures var log := Log(files, lo, hi);
      Load(files, Onwards(cursor, now), limit) == Result(FirstN(log[p..], limit), |log| - p <= limit)
  {
    hide Entries, Lines, ValidFiles, AllReadable, AllMessages, Within, Load, Safe, Sorted, Onwards;
    var log, w := Log(files, lo, hi), Onwards(cursor, now);
    LoadIsFlat(files, lo, hi, w, limit);
    forall i | 0 <= i < |log| ensures log[i].ts * SECOND < w.before.Instant() { assert log[i] in log; }
    WithinIsSuffix(log, w.after.Instant(), w.before.Instant(), p);
  }

  /** Every cursor the client will use is a good one. */
  ghost predicate GoodStarts(log: seq<Message>, p: nat, limit: nat, now: Time)
    requires p <= |log| && limit >= 1 && Sorted(log) && now.Valid()
    decreases |log| - p
  {
    |log| - p <= limit ||
    (var last := log[p + limit - 1].ts;
     BeyondIsLater(log, p + limit - 1);
     GoodStart(FromUnix(last), now, log) && GoodStarts(log, Below(log, last + 1), limit, now))
  }

  lemma StartsGoOn(log: seq<Message>, p: nat, limit: nat, now: Time)
    requires p + limit < |log| && limit >= 1 && Sorted(log) && now.Valid() && GoodStarts(log, p, limit, now)
    ensures var last := log[p + limit - 1].ts;
      p < Below(log, last + 1) <= |log| && GoodStart(FromUnix(last), now, log)
        && GoodStarts(log, Below(log, last + 1), limit, now)
  {
    hide GoodStart;
    BeyondIsLater(log, p + limit - 1);
  }

  lemma BeyondSplits(log: seq<Message>, ts: int)
    requires Sorted(log)
    ensures forall i :: 0 <= i < |log| ==> (i < Below(log, ts + 1) <==> log[i].ts * SECOND <= ts * SECOND)
  {
    BelowSplits(log, ts + 1);
  }

  /** The messages at the positions visited. */
  ghost function Seen(log: seq<Message>, p: nat, limit: nat): seq<Message>
    requires p <= |log| && limit >= 1 && Sorted(log)
  {
    NeverTwiceForward(log, p, limit);
    FromZero(Visits(log, p, limit), p, |log|);
    At(log, Visits(log, p, limit))
  }

  lemma FromZero(ps: seq<nat>, p: nat, hi: nat)
    requires Growing(ps, p, hi)
    ensures Growing(ps, 0, hi)
  {
  }

  lemma LastSeen(log: seq<Message>, p: nat, limit: nat)
    requires p <= |log| <= p + limit && limit >= 1 && Sorted(log)
    ensures Seen(log, p, limit) == log[p..]
  {
    hide Sorted, Growing, At;
    assert Visits(log, p, limit) == Span(p, |log| - p);
    hide Visits;
    AtSpan(log, p, |log| - p);
    assert log[p..|log|] == log[p..];
  }

  lemma SeenPage(log: seq<Message>, p: nat, limit: nat)
    requires p + limit < |log| && limit >= 1 && Sorted(log)
    ensures var n := Below(log, log[p + limit - 1].ts + 1);
      p < n <= |log| && Seen(log, p, limit) == log[p..p + limit] + Seen(log, n, limit)
  {
    VisitsStep(log, p, limit);
    hide Sorted, Below, Visits, Growing, At;
    var n := Below(log, log[p + limit - 1].ts + 1);
    NeverTwiceForward(log, p, limit);
    FromZero(Visits(log, p, limit), p, |log|);
    NeverTwiceForward(log, n, limit);
    FromZero(Visits(log, n, limit), n, |log|);
    AtSpan(log, p, limit);
    AtConcat(log, Span(p, limit), Visits(log, n, limit));
  }

  lemma {:induction false} PageOnIs(files: Files, lo: int, hi: int, cursor: Time, now: Time, p: nat, limit: int)
    requires ValidFiles(files) && AllReadable(files) && Covers(files, lo, hi) && lo <= hi
    requires cursor.Valid() && now.Valid()
    requires var log, n := Log(files, lo, hi), if 1 <= limit <= 200 then limit else 60;
      && GoodStart(cursor, now, log) && p <= |log| && GoodStarts(log, p, n, now)
      && forall i :: 0 <= i < |log| ==> (i < p <==> log[i].ts * SECOND <= cursor.Instant())
    ensures PageOn(files, cursor, now, limit, hi)
      == Seen(Log(files, lo, hi), p, if 1 <= limit <= 200 then limit else 60)
    decreases |Log(files, lo, hi)| - p
  {
    hide Entries, Lines, ValidFiles, AllReadable, Log, Load, GoodStart, MonthStart;
    hide Sorted, Below, FromUnix, Visits, Onwards;
    hide PageOn, Covers, Seen, GoodStarts;
    Covered(files, lo, hi);
    var log := Log(files, lo, hi);
    var n := EffectiveLimit(limit);
    OnePageForward(files, lo, hi, cursor, now, p, n);
    Response(files, cursor, now, limit, hi, log, p);
    if |log| - p <= n {
      LastSeen(log, p, n);
    } else {
      SeenPage(log, p, n);
      var last := log[p + n - 1].ts;
      StartsGoOn(log, p, n, now);
      BeyondSplits(log, last);
      SecondOf(last);
      PageOnIs(files, lo, hi, FromUnix(last), now, Below(log, last + 1), limit);
    }
  }

  lemma SeenAll(log: seq<Message>, p: nat, limit: nat)
    requires p <= |log| && limit >= 1 && Sorted(log)
    ensures Seen(log, p, limit) == log[p..] <==> SharpForward(log, p, limit)
  {
    hide Visits, SharpForward, Sorted, Growing, At;
    NeverTwiceForward(log, p, limit);
    FromZero(Visits(log, p, limit), p, |log|);
    AllVisitedForward(log, p, limit);
    AtSpan(log, p, |log| - p);
    assert log[p..|log|] == log[p..];
  }

  lemma Covered(files: Files, lo: int, hi: int)
    requires Covers(files, lo, hi)
    ensures forall k :: k in files ==> k < hi
  {
  }

  /** What the client makes of one answer. */
  lemma Response(files: Files, cursor: Time, now: Time, limit: int, hi: int, log: seq<Message>, p: nat)
    requires ValidFiles(files) && cursor.Valid() && now.Valid() && forall k :: k in files ==> k < hi
    requires var n := EffectiveLimit(limit);
      p <= |log| && Load(files, Onwards(cursor, now), n) == Result(FirstN(log[p..], n), |log| - p <= n)
    ensures var n := EffectiveLimit(limit);
      PageOn(files, cursor, now, limit, hi) ==
      if |log| - p <= n then log[p..]
      else log[p..p + n] + PageOn(files, FromUnix(log[p + n - 1].ts), now, limit, hi)
  {
    hide ValidFiles, Load, MonthStart, FromUnix, Onwards, Asked, EffectiveLimit;
    AskedOn(files, cursor, now, limit);
    var n := EffectiveLimit(limit);
    if |log| - p > n { assert log[p..][..n] == log[p..p + n]; }
  }

  /** Paging forward returns every message after the first cursor, each once and in
      order, exactly when no page boundary splits a second: a response's cursor is
      the second of its last message, and the next request starts behind it. */
  lemma ForwardPagingExact(files: Files, lo: int, hi: int, cursor: Time, now: Time, p: nat, limit: int)
    requires ValidFiles(files) && AllReadable(files) && Covers(files, lo, hi) && lo <= hi
    requires cursor.Valid() && now.Valid()
    requires var log, n := Log(files, lo, hi), if 1 <= limit <= 200 then limit else 60;
      && GoodStart(cursor, now, log) && p <= |log| && GoodStarts(log, p, n, now)
      && forall i :: 0 <= i < |log| ==> (i < p <==> log[i].ts * SECOND <= cursor.Instant())
    ensures var log, n := Log(files, lo, hi), if 1 <= limit <= 200 then limit else 60;
      PageOn(files, cursor, now, limit, hi) == log[p..] <==> SharpForward(log, p, n)
  {
    hide ValidFiles, AllReadable, Log, PageOn, GoodStart, GoodStarts;
    PageOnIs(files, lo, hi, cursor, now, p, limit);
    SeenAll(Log(files, lo, hi), p, if 1 <= limit <= 200 then limit else 60);
  }

  // ---------------------------------------------------------------------
  // Days 1 to 28, within a year
  // ---------------------------------------------------------------------

  lemma OrdinaryStart(cursor: Time, now: Time, log: seq<Message>)
    requires cursor.Valid() && now.Valid() && cursor.day <= 28
    requires forall m :: m in log ==> m.ts * SECOND < cursor.Instant() + 365 * DAY_SECONDS * SECOND
    requires forall m :: m in log ==> m.ts * SECOND < now.AddMonths(1).Instant()
    ensures GoodStart(cursor, now, log)
  {
    hide FirstDay;
    YearIsLong(cursor.month + 12);
    var year := cursor.AddYears(1);
    assert year == Time(cursor.month + 12, cursor.day, cursor.nanos);
    assert cursor.Instant() + 365 * DAY_SECONDS * SECOND <= year.Instant();
  }

  lemma {:induction false} OrdinaryStarts(log: seq<Message>, p: nat, limit: nat, now: Time)
    requires p <= |log| && limit >= 1 && Sorted(log) && OrdinaryLog(log) && now.Valid()
    requires forall m :: m in log ==> m.ts * SECOND < now.AddMonths(1).Instant()
    ensures GoodStarts(log, p, limit, now)
    decreases |log| - p
  {
    hide GoodStart, Sorted, Below, MonthStart, Onwards;
    if |log| - p > limit {
      var last := log[p + limit - 1];
      assert last in log;
      BeyondIsLater(log, p + limit - 1);
      OrdinaryStart(FromUnix(last.ts), now, log);
      OrdinaryStarts(log, Below(log, last.ts + 1), limit, now);
    }
  }

  /** The same from what a caller can check: a log within 365 days on days 1 to 28
      that does not reach a month into the future, and a first cursor on such a day,
      less than a year before its end. */
  lemma ForwardPagingOrdinaryLogs(files: Files, lo: int, hi: int, cursor: Time, now: Time, p: nat, limit: int)
    requires ValidFiles(files) && AllReadable(files) && Covers(files, lo, hi) && lo <= hi
    requires cursor.Valid() && now.Valid() && cursor.day <= 28
    requires var log := Log(files, lo, hi);
      && OrdinaryLog(log) && p <= |log|
      && (forall m :: m in log ==> m.ts * SECOND < cursor.Instant() + 365 * DAY_SECONDS * SECOND)
      && (forall m :: m in log ==> m.ts * SECOND < now.AddMonths(1).Instant())
      && forall i :: 0 <= i < |log| ==> (i < p <==> log[i].ts * SECOND <= cursor.Instant())
    ensures var log, n := Log(files, lo, hi), if 1 <= limit <= 200 then limit else 60;
      PageOn(files, cursor, now, limit, hi) == log[p..] <==> SharpForward(log, p, n)
  {
    hide Entries, Lines, ValidFiles, AllReadable, Log, PageOn, GoodStart, GoodStarts, OrdinaryLog, Sorted, FirstDay;
    var log := Log(files, lo, hi);
    OrdinaryStart(cursor, now, log);
    OrdinaryStarts(log, p, if 1 <= limit <= 200 then limit else 60, now);
    ForwardPagingExact(files, lo, hi, cursor, now, p, limit);
  }
}
