/** The laws of the history store: for which cursors `LoadMessages` answers as
    one flat log would, and what `SaveMessage` adds to that log. */
module HistoryLaws {
  import opened Calendar
  import opened Text
  import opened LogFormat
  import opened LogReader
  import opened History

  // ---------------------------------------------------------------------
  // The flat log
  // ---------------------------------------------------------------------

  lemma {:induction false} AllConcat(files: Files, lo: int, mid: int, hi: int)
    requires lo <= mid <= hi
    ensures AllMessages(files, lo, hi) == AllMessages(files, lo, mid) + AllMessages(files, mid, hi)
    decreases mid - lo
  {
    if lo < mid {
      AllConcat(files, lo + 1, mid, hi);
    }
  }

  function Matching(files: Files, w: Window, lo: int, hi: int): seq<Message> {
    Within(AllMessages(files, lo, hi), w.after.Instant(), w.before.Instant())
  }

  lemma MatchingConcat(files: Files, w: Window, lo: int, mid: int, hi: int)
    requires lo <= mid <= hi
    ensures Matching(files, w, lo, hi) == Matching(files, w, lo, mid) + Matching(files, w, mid, hi)
  {
    AllConcat(files, lo, mid, hi);
    WithinConcat(AllMessages(files, lo, mid), AllMessages(files, mid, hi), w.after.Instant(), w.before.Instant());
  }

  /** Months whose files hold nothing inside the window. */
  predicate Irrelevant(w: Window, month: int) {
    month < w.after.month || MonthStart(month) * SECOND >= w.before.Instant()
  }

  lemma IrrelevantMonth(files: Files, w: Window, month: int)
    requires ValidFiles(files) && w.Valid() && Irrelevant(w, month)
    ensures Within(FileEntries(files, month), w.after.Instant(), w.before.Instant()) == []
  {
    hide Entries, Lines, Sorted;
    var ms := FileEntries(files, month);
    InstantInMonth(w.after);
    if month + 1 < w.after.month {
      MonthsIncrease(month + 1, w.after.month);
    }
    forall m | m in ms ensures !InRange(m, w.after.Instant(), w.before.Instant()) {
      assert InMonth(m.ts, month);
    }
    WithinNone(ms, w.after.Instant(), w.before.Instant());
  }

  lemma {:induction false} IrrelevantMonths(files: Files, w: Window, lo: int, hi: int)
    requires ValidFiles(files) && w.Valid()
    requires forall k :: lo <= k < hi ==> Irrelevant(w, k)
    ensures Matching(files, w, lo, hi) == []
    decreases hi - lo
  {
    hide Entries, Lines, Sorted, Irrelevant, ValidFiles;
    if lo < hi {
      IrrelevantMonth(files, w, lo);
      IrrelevantMonths(files, w, lo + 1, hi);
      WithinConcat(FileEntries(files, lo), AllMessages(files, lo + 1, hi), w.after.Instant(), w.before.Instant());
    }
  }

  lemma {:induction false} NoFiles(files: Files, lo: int, hi: int)
    requires forall k :: lo <= k < hi ==> k !in files
    ensures AllMessages(files, lo, hi) == []
    decreases hi - lo
  {
    if lo < hi {
      NoFiles(files, lo + 1, hi);
    }
  }

  /** Any two ranges that cover the files give the same flat log. */
  lemma CoverIsEnough(files: Files, lo: int, hi: int, lo': int, hi': int)
    requires Covers(files, lo, hi) && lo' <= lo <= hi <= hi'
    ensures AllMessages(files, lo', hi') == AllMessages(files, lo, hi)
  {
    AllConcat(files, lo', lo, hi');
    AllConcat(files, lo, hi, hi');
    NoFiles(files, lo', lo);
    NoFiles(files, hi, hi');
  }

  // ---------------------------------------------------------------------
  // One page
  // ---------------------------------------------------------------------

  /** A readable file is read, and what cannot be read holds nothing to miss. */
  lemma ReadableIsRead(content: string, month: int, after: int, before: int, n: int)
    requires FileOk(content, month) && Readable(content)
    ensures (match ReadForward(content, after, before, n) case None => [] case Some(ms) => ms)
      == FirstN(Within(Entries(Lines(content)), after, before), n)
  {
    hide Entries, Lines, Sorted, ScanLines;
    SameLines(content);
    if Entries(Lines(content)) == [] {
      assert Within(Entries(Lines(content)), after, before) == [];
    } else {
      hide Within;
      NoLongLine(content, after, before, n);
    }
  }

  lemma NoLongLine(content: string, after: int, before: int, n: int)
    requires TokensFit(content)
    ensures !ScanFails(content, after, before, n)
  {
    hide Entries, Lines, Within;
  }

  lemma PageIs(files: Files, w: Window, n: int, month: int)
    requires ValidFiles(files) && (w.forward ==> AllReadable(files)) && n >= 1
    ensures var hits := Within(FileEntries(files, month), w.after.Instant(), w.before.Instant());
      Page(files, w, n, month) == if w.forward then FirstN(hits, n) else LastN(hits, n)
  {
    hide Entries, Lines, Sorted, Within, ScanLines, ReadForward, Readable;
    if month in files {
      assert FileOk(files[month], month);
      if w.forward { ReadableIsRead(files[month], month, w.after.Instant(), w.before.Instant(), n); }
    } else {
      assert Within([], w.after.Instant(), w.before.Instant()) == [] by {
        WithinNone([], w.after.Instant(), w.before.Instant());
      }
    }
  }

  /** Whether it can be read or not, a file gives nothing that it should not. */
  lemma PageIsPart(files: Files, w: Window, n: int, month: int)
    requires ValidFiles(files) && w.forward
    ensures Page(files, w, n, month) == []
      || Page(files, w, n, month) == FirstN(Within(FileEntries(files, month), w.after.Instant(), w.before.Instant()), n)
  {
    hide Entries, Lines, Sorted, Within, ScanLines, ScanFails;
    if month in files {
      assert FileOk(files[month], month);
      SameLines(files[month]);
    }
  }

  lemma FirstNStitch<T>(found: seq<T>, hits: seq<T>, rest: seq<T>, n: nat)
    requires |found| < n
    ensures FirstN(found + hits, n) == found + FirstN(hits, n - |found|)
    ensures |found + hits| >= n ==> FirstN(found + hits + rest, n) == FirstN(found + hits, n)
  {
  }

  lemma LastNStitch<T>(found: seq<T>, hits: seq<T>, rest: seq<T>, n: nat)
    requires |found| < n
    ensures LastN(hits + found, n) == LastN(hits, n - |found|) + found
    ensures |hits + found| >= n ==> LastN(rest + (hits + found), n) == LastN(hits + found, n)
  {
  }

  // ---------------------------------------------------------------------
  // Forward
  // ---------------------------------------------------------------------

  /** No month that is searched is too short for the cursor's day of month. */
  ghost predicate Safe(w: Window)
    requires w.Valid()
  {
    if w.forward then
      forall k :: w.after.month < k && MonthStart(k) * SECOND < w.before.Instant() ==> w.after.day <= DaysIn(k)
    else
      forall k :: w.before.month - 12 <= k < w.before.month ==> w.before.day <= DaysIn(k)
  }

  lemma {:induction false} PastTheEnd(files: Files, w: Window, limit: nat, cursor: Time, found: seq<Message>)
    requires ValidFiles(files) && w.Valid() && w.forward && cursor.Valid() && |found| <= limit
    requires MonthStart(cursor.month) * SECOND >= w.before.Instant()
    ensures Walk(files, w, limit, cursor, found) == found
    decreases w.before.AddMonths(1).month - cursor.month
  {
    hide Entries, Lines, Sorted, Within, ScanLines, ValidFiles, InWindow, ReadForward;
    if InWindow(w, cursor) {
      WalkTerminates(w, cursor);
      PageIsPart(files, w, limit + 1 - |found|, cursor.month);
      IrrelevantMonth(files, w, cursor.month);
      assert found + [] == found;
      var next := cursor.AddMonths(1);
      MonthsIncrease(cursor.month, next.month);
      PastTheEnd(files, w, limit, next, found);
    }
  }

  lemma InWindowForward(w: Window, cursor: Time)
    requires w.Valid() && w.forward && cursor.Valid() && w.after.month <= cursor.month
    requires cursor.day == w.after.day && cursor.nanos == w.after.nanos
    requires MonthStart(cursor.month) * SECOND < w.before.Instant()
    ensures InWindow(w, cursor) && cursor.month <= w.before.month
  {
    if w.after.month < cursor.month { LaterMonth(w.after, cursor); }
    if w.before.month < cursor.month {
      InstantInMonth(w.before);
      if w.before.month + 1 < cursor.month { MonthsIncrease(w.before.month + 1, cursor.month); }
    }
    LaterMonth(cursor, w.before.AddMonths(1));
  }

  lemma {:induction false} WalkForward(files: Files, w: Window, limit: nat, cursor: Time, lo: int, hi: int)
    requires ValidFiles(files) && AllReadable(files) && w.Valid() && w.forward && Safe(w) && cursor.Valid()
    requires lo <= cursor.month <= hi && w.after.month <= cursor.month && w.before.month < hi
    requires MonthStart(cursor.month) * SECOND < w.before.Instant() ==>
      cursor.day == w.after.day && cursor.nanos == w.after.nanos
    requires |Matching(files, w, lo, cursor.month)| <= limit
    ensures Walk(files, w, limit, cursor, Matching(files, w, lo, cursor.month))
      == FirstN(Matching(files, w, lo, hi), limit + 1)
    decreases hi - cursor.month
  {
    hide Entries, Lines, Sorted, Within, ScanLines;
    hide ValidFiles, AllReadable, InWindow, Safe, Matching, Page, Walk, FirstDay;
    var k, found := cursor.month, Matching(files, w, lo, cursor.month);
    MatchingConcat(files, w, lo, k, hi);
    if MonthStart(k) * SECOND >= w.before.Instant() {
      PastTheEnd(files, w, limit, cursor, found);
      AfterEnd(w, k);
      IrrelevantMonths(files, w, k, hi);
    } else {
      InWindowForward(w, cursor);
      OneMonth(files, w, k);
      MatchingConcat(files, w, lo, k, k + 1);
      MatchingConcat(files, w, lo, k + 1, hi);
      PageIs(files, w, limit + 1 - |found|, k);
      var hits := Matching(files, w, k, k + 1);
      FirstNStitch(found, hits, Matching(files, w, k + 1, hi), limit + 1);
      WalkStep(files, w, limit, cursor, found);
      if |found + hits| <= limit {
        var next := cursor.AddMonths(1);
        SafeStep(w, cursor);
        if MonthStart(k + 1) * SECOND >= w.before.Instant() {
          if k + 1 < next.month { MonthsIncrease(k + 1, next.month); }
          PastTheEnd(files, w, limit, next, found + hits);
          AfterEnd(w, k + 1);
          IrrelevantMonths(files, w, k + 1, hi);
        } else {
          WalkForward(files, w, limit, next, lo, hi);
        }
      }
    }
  }

  /** Every month from one that starts at or after the end on is irrelevant. */
  lemma AfterEnd(w: Window, month: int)
    requires MonthStart(month) * SECOND >= w.before.Instant()
    ensures forall k :: month <= k ==> Irrelevant(w, k)
  {
    forall k | month <= k ensures Irrelevant(w, k) {
      if month < k { MonthsIncrease(month, k); }
    }
  }

  lemma OneMonth(files: Files, w: Window, k: int)
    ensures Matching(files, w, k, k + 1) == Within(FileEntries(files, k), w.after.Instant(), w.before.Instant())
  {
    hide Entries, Lines, Within;
    assert AllMessages(files, k + 1, k + 1) == [];
    assert AllMessages(files, k, k + 1) == FileEntries(files, k) + [] == FileEntries(files, k);
  }

  /** A step within a safe window keeps the day and moves one month, unless it
      leaves the searched months. */
  lemma SafeStep(w: Window, cursor: Time)
    requires w.Valid() && w.forward && Safe(w) && cursor.Valid() && w.after.month <= cursor.month
    requires cursor.day == w.after.day && cursor.nanos == w.after.nanos
    ensures MonthStart(cursor.month + 1) * SECOND < w.before.Instant() ==>
      cursor.AddMonths(1) == Time(cursor.month + 1, cursor.day, cursor.nanos)
  {
  }

  // ---------------------------------------------------------------------
  // Backward
  // ---------------------------------------------------------------------

  lemma InWindowBackward(w: Window, cursor: Time)
    requires w.Valid() && !w.forward && Safe(w) && cursor.Valid()
    requires cursor.day == w.before.day && cursor.nanos == w.before.nanos
    requires w.before.month - 12 <= cursor.month <= w.before.month
    ensures w.after == Time(w.before.month - 12, w.before.day, w.before.nanos)
    ensures InWindow(w, cursor)
    ensures var next := cursor.AddMonths(-1);
      if cursor.month == w.before.month - 12 then !InWindow(w, next)
      else next == Time(cursor.month - 1, cursor.day, cursor.nanos)
  {
    assert w.after == Time(w.before.month - 12, w.before.day, w.before.nanos) by {
      assert w.before.day <= DaysIn(w.before.month - 12);
    }
    if w.after.month < cursor.month { LaterMonth(w.after, cursor); }
    LaterMonth(cursor, w.before.AddMonths(1));
    var next := cursor.AddMonths(-1);
    if cursor.month == w.before.month - 12 {
      if next.month < w.after.month { LaterMonth(next, w.after); }
    } else {
      assert w.before.day <= DaysIn(cursor.month - 1);
    }
  }

  lemma {:induction false} WalkBackward(files: Files, w: Window, limit: nat, cursor: Time, lo: int, hi: int)
    requires ValidFiles(files) && w.Valid() && !w.forward && Safe(w) && cursor.Valid()
    requires cursor.day == w.before.day && cursor.nanos == w.before.nanos
    requires w.before.month - 12 <= cursor.month <= w.before.month
    requires lo <= w.before.month - 12 && w.before.month < hi
    requires |Matching(files, w, cursor.month + 1, hi)| <= limit
    ensures Walk(files, w, limit, cursor, Matching(files, w, cursor.month + 1, hi))
      == LastN(Matching(files, w, lo, hi), limit + 1)
    decreases cursor.month - w.before.month + 12
  {
    hide Entries, Lines, Sorted, Within, ScanLines;
    hide ValidFiles, AllReadable, InWindow, Safe, Matching, Page, Walk, DaysIn;
    var k := cursor.month;
    var found, hits := Matching(files, w, k + 1, hi), Matching(files, w, k, k + 1);
    InWindowBackward(w, cursor);
    OneMonth(files, w, k);
    MatchingConcat(files, w, lo, k, hi);
    MatchingConcat(files, w, k, k + 1, hi);
    PageIs(files, w, limit + 1 - |found|, k);
    LastNStitch(found, hits, Matching(files, w, lo, k), limit + 1);
    WalkStep(files, w, limit, cursor, found);
    if |hits + found| <= limit {
      var next := cursor.AddMonths(-1);
      if k == w.before.month - 12 {
        IrrelevantMonths(files, w, lo, k);
        WalkEnd(files, w, limit, next, hits + found);
        assert [] + (hits + found) == hits + found;
      } else {
        WalkBackward(files, w, limit, next, lo, hi);
      }
    }
  }

  // ---------------------------------------------------------------------
  // Safe cursors are enough
  // ---------------------------------------------------------------------

  lemma TrimFirst(w: Window, ms: seq<Message>, limit: nat)
    ensures w.forward ==> Trim(w, FirstN(ms, limit + 1), limit) == Result(FirstN(ms, limit), |ms| <= limit)
    ensures !w.forward ==> Trim(w, LastN(ms, limit + 1), limit) == Result(LastN(ms, limit), |ms| <= limit)
  {
  }

  /** The fast walk refines the flat log, for any range that covers the files. */
  lemma LoadIsFlat(files: Files, lo: int, hi: int, w: Window, limit: nat)
    requires ValidFiles(files) && Covers(files, lo, hi) && lo <= hi && w.Valid() && Safe(w)
    requires w.forward ==> AllReadable(files)
    ensures Load(files, w, limit) == FlatLoad(files, lo, hi, w, limit)
  {
    hide Entries, Lines, Sorted, Within, ScanLines, ValidFiles, AllReadable, InWindow, Safe, Page, Walk, AllMessages;
    var a := if lo < w.after.month then lo else w.after.month;
    a := if a < w.before.month - 12 then a else w.before.month - 12;
    var b := if hi > w.before.month + 1 then hi else w.before.month + 1;
    b := if b > w.after.month then b else w.after.month;
    CoverIsEnough(files, lo, hi, a, b);
    TrimFirst(w, Matching(files, w, a, b), limit);
    if w.forward {
      BeforeStart(w, a, w.after.month);
      IrrelevantMonths(files, w, a, w.after.month);
      WalkForward(files, w, limit, w.after, a, b);
    } else {
      BackwardEnd(files, w, b);
      WalkBackward(files, w, limit, w.before, a, b);
    }
  }

  lemma BeforeStart(w: Window, lo: int, hi: int)
    requires hi <= w.after.month
    ensures forall k :: lo <= k < hi ==> Irrelevant(w, k)
  {
  }

  lemma BackwardEnd(files: Files, w: Window, hi: int)
    requires ValidFiles(files) && w.Valid() && w.before.month < hi
    ensures Matching(files, w, w.before.month + 1, hi) == []
  {
    hide Entries, Lines, Sorted, Within, ValidFiles, Matching;
    InstantInMonth(w.before);
    AfterEnd(w, w.before.month + 1);
    IrrelevantMonths(files, w, w.before.month + 1, hi);
  }

  // ---------------------------------------------------------------------
  // Saving
  // ---------------------------------------------------------------------

  lemma {:induction false} EntriesOfLine(line: string)
    ensures Entries([line]) == (if ParseLine(line).Some? then [ParseLine(line).value] else [])
  {
    hide ParseLine;
    assert [line][1..] == [];
  }

  /** Appending one line to a file of complete lines. */
  lemma AppendLine(content: string, line: string)
    requires content == "" || content[|content| - 1] == '\n'
    requires '\n' !in line
    ensures var ls := Lines(content);
      Lines(content + line + "\n") == ls[..|ls| - 1] + [line, ""]
  {
    hide Lines;
    CompleteLines(content);
    LineAndNewline(line);
    assert content + line + "\n" == content + (line + "\n");
    LinesOfConcat(content, line + "\n");
    assert "" + line == line;
  }

  lemma LineAndNewline(line: string)
    requires '\n' !in line
    ensures Lines(line + "\n") == [line, ""]
  {
    hide Lines;
    OneLine(line);
    NewlineAlone();
    LinesOfConcat(line, "\n");
    assert line + "" == line;
  }

  lemma NewlineAlone()
    ensures Lines("\n") == ["", ""]
  {
    assert "\n"[1..] == "";
  }

  lemma {:induction false} CompleteLines(content: string)
    requires content == "" || content[|content| - 1] == '\n'
    ensures Lines(content)[|Lines(content)| - 1] == ""
  {
    if |content| == 1 {
      assert content[1..] == "";
      assert Lines(content) == ["", ""];
    } else if content != "" {
      CompleteLines(content[1..]);
      assert |Lines(content[1..])| > 1 by {
        if |Lines(content[1..])| == 1 { NewlineSplits(content[1..]); }
      }
    }
  }

  lemma {:induction false} NewlineSplits(s: string)
    requires '\n' in s
    ensures |Lines(s)| > 1
  {
    if s[0] != '\n' {
      NewlineSplits(s[1..]);
    }
  }

  /** What a stored message must be to come back from its line unharmed. */
  ghost predicate Storable(m: Message) {
    && Stampable(FromUnix(m.ts)) && Sendable(m)
    && '\n' !in FormatBody(m) && DropCR(FormatLine(m)) == FormatLine(m)
  }

  lemma SortedAppend(ms: seq<Message>, m: Message)
    requires Sorted(ms) && forall x :: x in ms ==> x.ts <= m.ts
    ensures Sorted(ms + [m])
  {
    forall i, j | 0 <= i < j < |ms + [m]| ensures (ms + [m])[i].ts <= (ms + [m])[j].ts {
      if j == |ms| { assert ms[i] in ms; }
    }
  }

  lemma EntriesAppend(front: seq<string>, line: string)
    ensures Entries(front + [line, ""]) == Entries(front + [""]) + Entries([line])
  {
    hide ParseLine;
    EmptyLine();
    EntriesOfLine("");
    hide ParseLine, Entries;
    assert front + [line, ""] == front + ([line] + [""]);
    EntriesOfConcat(front, [""]);
    EntriesOfConcat([line], [""]);
    EntriesOfConcat(front, [line] + [""]);
  }

  lemma AppendEntry(content: string, m: Message)
    requires content == "" || content[|content| - 1] == '\n'
    requires Storable(m)
    ensures var content' := content + FormatLine(m) + "\n";
      && Entries(Lines(content')) == Entries(Lines(content)) + [m]
      && forall l :: l in Lines(content') <==> l in Lines(content) || l == FormatLine(m)
  {
    hide ParseLine, FormatLine, Lines, Sendable, Entries;
    var line, ls := FormatLine(m), Lines(content);
    LineRoundTrip(m);
    NoNewlineInLine(m);
    AppendLine(content, line);
    CompleteLines(content);
    var front := ls[..|ls| - 1];
    assert ls == front + [""];
    EntriesOfLine(line);
    EntriesAppend(front, line);
    var lines := Lines(content + line + "\n");
    assert lines == front + [line, ""];
    assert forall l :: l in lines <==> l in front || l == line || l == "";
    assert forall l :: l in ls <==> l in front || l == "";
  }

  lemma AppendMessage(content: string, month: int, m: Message)
    requires FileOk(content, month) && Storable(m) && InMonth(m.ts, month)
    requires forall x :: x in Entries(Lines(content)) ==> x.ts <= m.ts
    ensures var content' := content + FormatLine(m) + "\n";
      && FileOk(content', month) && Entries(Lines(content')) == Entries(Lines(content)) + [m]
      && (Readable(content') <==> TokensFit(content) && |FormatLine(m)| < TOKEN_LIMIT)
  {
    hide ParseLine, FormatLine, Lines, Sendable, Entries, Sorted;
    var content' := content + FormatLine(m) + "\n";
    AppendEntry(content, m);
    SortedAppend(Entries(Lines(content)), m);
    assert content'[|content'| - 1] == '\n';
  }

  lemma NoNewlineInLine(m: Message)
    requires Stampable(FromUnix(m.ts)) && '\n' !in FormatBody(m)
    ensures '\n' !in FormatLine(m)
  {
    hide FormatBody;
    var t := FromUnix(m.ts);
    StampRoundTrip(t);
    var stamp := FormatStamp(t);
    assert '\n' !in stamp by {
      forall i | 0 <= i < 19 ensures stamp[i] != '\n' { assert StampShape(stamp); }
    }
  }

  /** Saving touches one file, and adds the message at its end. */
  lemma SaveInFile(files: Files, m: Message)
    requires ValidFiles(files) && Storable(m)
    requires forall x :: x in FileEntries(files, FromUnix(m.ts).month) ==> x.ts <= m.ts
    ensures var files', k := Saved(files, m), FromUnix(m.ts).month;
      && ValidFiles(files')
      && FileEntries(files', k) == FileEntries(files, k) + [m]
      && (Readable(files'[k]) <==> TokensFit(if k in files then files[k] else "") && |FormatLine(m)| < TOKEN_LIMIT)
      && forall j :: j != k ==> (j in files <==> j in files') && (j in files ==> files[j] == files'[j])
  {
    hide Lines, Entries, FormatLine, FileOk, Storable, TokensFit, Readable;
    var k := FromUnix(m.ts).month;
    EmptyFile(k);
    AppendMessage(if k in files then files[k] else "", k, m);
  }

  /** Saving in time order keeps the store valid and appends exactly the saved
      message to the flat log. */
  lemma SaveAppends(files: Files, lo: int, hi: int, m: Message)
    requires ValidFiles(files) && Covers(files, lo, hi) && Storable(m)
    requires forall x :: x in AllMessages(files, lo, hi) ==> x.ts <= m.ts
    requires lo <= FromUnix(m.ts).month < hi
    ensures var files' := Saved(files, m);
      && ValidFiles(files') && Covers(files', lo, hi)
      && AllMessages(files', lo, hi) == AllMessages(files, lo, hi) + [m]
  {
    hide ValidFiles, Saved, FileEntries, FromUnix;
    var k, files' := FromUnix(m.ts).month, Saved(files, m);
    AllConcat(files, lo, k, hi);
    var front, here := AllMessages(files, lo, k), FileEntries(files, k);
    assert AllMessages(files, k, hi) == here + AllMessages(files, k + 1, hi);
    assert AllMessages(files, lo, hi) == front + here by {
      LaterMonthsEmpty(files, lo, k, hi, m);
      assert here + [] == here;
    }
    forall x | x in here ensures x.ts <= m.ts {
      assert x in front + here;
    }
    SaveInFile(files, m);
    LaterMonthsEmpty(files, lo, k, hi, m);
    SameBelow(files, files', lo, k);
    SameBelow(files, files', k + 1, hi);
    AllConcat(files', lo, k, hi);
    assert AllMessages(files', k, hi) == (here + [m]) + [] == here + [m];
    assert front + (here + [m]) == (front + here) + [m];
    SavedKeys(files, m);
  }

  lemma SavedKeys(files: Files, m: Message)
    requires Stampable(FromUnix(m.ts))
    ensures Saved(files, m).Keys == files.Keys + {FromUnix(m.ts).month}
  {
  }

  lemma EmptyFile(k: int)
    ensures FileOk("", k) && Entries(Lines("")) == []
  {
    EmptyLine();
    EntriesOfLine("");
  }

  lemma {:induction false} SameBelow(files: Files, files': Files, lo: int, hi: int)
    requires forall k :: lo <= k < hi ==> (k in files <==> k in files') && (k in files ==> files[k] == files'[k])
    ensures AllMessages(files, lo, hi) == AllMessages(files', lo, hi)
    decreases hi - lo
  {
    if lo < hi {
      SameBelow(files, files', lo + 1, hi);
    }
  }

  /** When the new message is the latest, no later month holds a message. */
  lemma LaterMonthsEmpty(files: Files, lo: int, k: int, hi: int, m: Message)
    requires ValidFiles(files) && lo <= k < hi && InMonth(m.ts, k)
    requires forall x :: x in AllMessages(files, lo, hi) ==> x.ts <= m.ts
    ensures AllMessages(files, k + 1, hi) == []
  {
    hide Lines, Entries, FileOk, ValidFiles, AllMessages;
    AllConcat(files, lo, k + 1, hi);
    var later := AllMessages(files, k + 1, hi);
    if later != [] {
      assert later[0] in AllMessages(files, lo, hi);
      var j := HolderOf(files, k + 1, hi);
      if k + 1 < j { MonthsIncrease(k + 1, j); }
    }
  }

  lemma {:induction false} HolderOf(files: Files, lo: int, hi: int) returns (j: int)
    requires ValidFiles(files) && AllMessages(files, lo, hi) != []
    ensures lo <= j < hi && InMonth(AllMessages(files, lo, hi)[0].ts, j)
    decreases hi - lo
  {
    hide Lines, Entries, Sorted;
    if FileEntries(files, lo) != [] {
      assert AllMessages(files, lo, hi)[0] == FileEntries(files, lo)[0];
      assert FileEntries(files, lo)[0] in FileEntries(files, lo);
      j := lo;
    } else {
      j := HolderOf(files, lo + 1, hi);
    }
  }

  // ---------------------------------------------------------------------
  // Unsafe cursors are wrong for some store
  // ---------------------------------------------------------------------

  function Sample(ts: int): Message { Message("", "", Private, ts) }

  lemma SampleFile(ts: int)
    requires Stampable(FromUnix(ts))
    ensures var files := Saved(map[], Sample(ts));
      && ValidFiles(files) && AllReadable(files) && files.Keys == {MonthOf(ts)}
      && FileEntries(files, MonthOf(ts)) == [Sample(ts)]
  {
    hide Lines, Entries;
    var m := Sample(ts);
    assert !Contains("", "> ");
    var line := FormatLine(m);
    assert line[|line| - 1] == ' ' && |line| < TOKEN_LIMIT;
    NoLines();
    SaveInFile(map[], m);
  }

  lemma NoLines()
    ensures TokensFit("")
  {
  }

  lemma WithinOne(m: Message, after: int, before: int)
    requires InRange(m, after, before)
    ensures Within([m], after, before) == [m]
  {
    hide InRange;
    assert [m][1..] == [];
  }

  /** The flat answer for a store that holds one message in the window. */
  lemma SampleFlat(files: Files, k: int, w: Window, limit: nat, m: Message)
    requires FileEntries(files, k) == [m] && limit >= 1
    requires InRange(m, w.after.Instant(), w.before.Instant())
    ensures FlatLoad(files, k, k + 1, w, limit) == Result([m], true)
  {
    hide InRange, Within, FileEntries;
    assert AllMessages(files, k + 1, k + 1) == [];
    assert AllMessages(files, k, k + 1) == [m] + [] == [m];
    WithinOne(m, w.after.Instant(), w.before.Instant());
  }

  lemma {:induction false} WalkSkips(files: Files, w: Window, limit: nat, cursor: Time, k: int)
    requires w.Valid() && w.forward && cursor.Valid() && files.Keys == {k}
    requires DaysIn(k) < w.after.day && forall j :: w.after.month < j < k ==> w.after.day <= DaysIn(j)
    requires w.after.month <= cursor.month && cursor.month != k
    requires cursor.month < k ==> cursor.day == w.after.day
    ensures Walk(files, w, limit, cursor, []) == []
    decreases w.before.AddMonths(1).month - cursor.month
  {
    hide Entries, Lines, Within, InWindow;
    if InWindow(w, cursor) {
      WalkTerminates(w, cursor);
      assert Page(files, w, limit + 1, cursor.month) == [];
      WalkSkips(files, w, limit, cursor.AddMonths(1), k);
    }
  }

  lemma MonthBounds(t: Time, k: int)
    requires t.Valid()
    ensures t.month < k ==> t.Instant() < MonthStart(k) * SECOND
    ensures k < t.month ==> MonthStart(k + 1) * SECOND <= t.Instant()
  {
    InstantInMonth(t);
    if t.month + 1 < k { MonthsIncrease(t.month + 1, k); }
    if k + 1 < t.month { MonthsIncrease(k + 1, t.month); }
  }

  lemma SampleTime(k: int, days: nat)
    requires days < 28
    ensures MonthOf(MonthStart(k) + days * DAY_SECONDS) == k
  {
    NextMonth(k);
    MonthIsUnique(MonthStart(k) + days * DAY_SECONDS, k, MonthOf(MonthStart(k) + days * DAY_SECONDS));
  }

  /** A month too short for the cursor's day is never opened. */
  lemma ForwardSkipsAMonth(w: Window, limit: nat, k: int)
    requires w.Valid() && w.forward && FourDigitYears(w) && limit >= 1
    requires w.after.month < k && MonthStart(k) * SECOND < w.before.Instant() && DaysIn(k) < w.after.day
    requires forall j :: w.after.month < j < k ==> w.after.day <= DaysIn(j)
    ensures exists files: Files ::
      ValidFiles(files) && AllReadable(files) && Covers(files, k, k + 1)
        && Load(files, w, limit) != FlatLoad(files, k, k + 1, w, limit)
  {
    hide Entries, Lines, Within, ValidFiles, AllReadable, Saved, FirstDay, FlatLoad, FileEntries, DaysIn;
    var m := Sample(MonthStart(k));
    SampleTime(k, 0);
    MonthBounds(w.before, k);
    MonthBounds(w.after, k);
    SampleFile(m.ts);
    var files := Saved(map[], m);
    SampleFlat(files, k, w, limit, m);
    WalkSkips(files, w, limit, w.after, k);
  }

  /** The years that the log format and the file names can show. */
  predicate FourDigitYears(w: Window) { 0 <= w.after.month && w.before.month < 12 * 10000 }

  lemma {:induction false} WalkBelow(files: Files, w: Window, limit: nat, cursor: Time, found: seq<Message>, k: int)
    requires w.Valid() && !w.forward && cursor.Valid() && files.Keys == {k} && |found| <= limit
    requires cursor.month < k && cursor.day <= 28
    ensures Walk(files, w, limit, cursor, found) == found
    decreases cursor.month - w.after.month
  {
    hide Entries, Lines, Within, InWindow;
    if InWindow(w, cursor) {
      WalkTerminates(w, cursor);
      assert Page(files, w, limit + 1 - |found|, cursor.month) == [];
      assert [] + found == found;
      WalkBelow(files, w, limit, cursor.AddMonths(-1), found, k);
    }
  }

  lemma InWindowUntilOverflow(w: Window, cursor: Time, k: int)
    requires w.Valid() && !w.forward && cursor.Valid()
    requires w.before.month - 12 <= k - 1 && k <= cursor.month <= w.before.month
    requires DaysIn(k - 1) < w.before.day && cursor.nanos == w.before.nanos
    requires cursor.day == w.before.day || (cursor.month == k && cursor.day == w.before.day - DaysIn(k - 1))
    ensures InWindow(w, cursor)
  {
    LaterMonth(cursor, w.before.AddMonths(1));
    if w.after.month < cursor.month {
      LaterMonth(w.after, cursor);
    } else {
      assert w.after.month == cursor.month == k;
    }
  }

  lemma OneStep(files: Files, w: Window, limit: nat, cursor: Time, found: seq<Message>, page: seq<Message>)
    requires w.Valid() && !w.forward && cursor.Valid() && InWindow(w, cursor)
    requires page == Page(files, w, limit + 1 - |found|, cursor.month)
    ensures Walk(files, w, limit, cursor, found) ==
      if |page + found| > limit then page + found else Walk(files, w, limit, cursor.AddMonths(-1), page + found)
  {
    hide InWindow, Page;
  }

  lemma {:induction false} WalkRepeats(files: Files, w: Window, limit: nat, cursor: Time, k: int, m: Message)
    requires ValidFiles(files) && w.Valid() && !w.forward && cursor.Valid() && files.Keys == {k} && limit >= 1
    requires FileEntries(files, k) == [m] && InRange(m, w.after.Instant(), w.before.Instant())
    requires w.before.month - 12 <= k - 1 && k <= cursor.month <= w.before.month
    requires DaysIn(k - 1) < w.before.day && forall j :: k <= j < w.before.month ==> w.before.day <= DaysIn(j)
    requires cursor.day == w.before.day && cursor.nanos == w.before.nanos
    ensures Walk(files, w, limit, cursor, []) == [m, m]
    decreases cursor.month - k
  {
    hide Entries, Lines, Within, InWindow, ValidFiles, FileEntries, InRange, Page, Walk, FirstDay;
    InWindowUntilOverflow(w, cursor, k);
    var next := cursor.AddMonths(-1);
    if cursor.month == k {
      PageOfSample(files, w, limit + 1, k, m);
      OneStep(files, w, limit, cursor, [], [m]);
      InWindowUntilOverflow(w, next, k);
      PageOfSample(files, w, limit, k, m);
      OneStep(files, w, limit, next, [m], [m]);
      assert [m] + [] == [m] && [m] + [m] == [m, m];
      if limit >= 2 {
        WalkBelow(files, w, limit, next.AddMonths(-1), [m, m], k);
      }
    } else {
      PageOfNothing(files, w, limit + 1, cursor.month);
      OneStep(files, w, limit, cursor, [], []);
      WalkRepeats(files, w, limit, next, k, m);
    }
  }

  lemma PageOfNothing(files: Files, w: Window, n: int, k: int)
    requires k !in files
    ensures Page(files, w, n, k) == []
  {
  }

  lemma PageOfSample(files: Files, w: Window, n: nat, k: int, m: Message)
    requires ValidFiles(files) && FileEntries(files, k) == [m] && n >= 1 && !w.forward
    requires InRange(m, w.after.Instant(), w.before.Instant()) && k in files
    ensures Page(files, w, n, k) == [m]
  {
    hide Entries, Lines, InRange, Within, ReadForward;
    WithinOne(m, w.after.Instant(), w.before.Instant());
  }

  /** A month before a too short month is read twice. */
  lemma BackwardRepeatsAMonth(w: Window, limit: nat, k: int)
    requires w.Valid() && !w.forward && FourDigitYears(w) && limit >= 1
    requires w.before.month - 12 <= k - 1 && k <= w.before.month && DaysIn(k - 1) < w.before.day
    requires forall j :: k <= j < w.before.month ==> w.before.day <= DaysIn(j)
    ensures exists files: Files ::
      ValidFiles(files) && Covers(files, k, k + 1) && Load(files, w, limit) != FlatLoad(files, k, k + 1, w, limit)
  {
    hide Entries, Lines, Within, ValidFiles, Saved, FirstDay, FlatLoad, FileEntries, Walk;
    var m := Sample(MonthStart(k) + 9 * DAY_SECONDS);
    SampleTime(k, 9);
    NextMonth(k);
    MonthBounds(w.before, k);
    MonthBounds(w.after, k);
    SampleFile(m.ts);
    var files := Saved(map[], m);
    SampleFlat(files, k, w, limit, m);
    WalkRepeats(files, w, limit, w.before, k, m);
  }

  // ---------------------------------------------------------------------
  // The exact condition
  // ---------------------------------------------------------------------

  ghost predicate AlwaysFlat(w: Window, limit: nat)
    requires w.Valid()
  {
    forall files: Files, lo, hi ::
      ValidFiles(files) && (w.forward ==> AllReadable(files)) && Covers(files, lo, hi) && lo <= hi ==>
        Load(files, w, limit) == FlatLoad(files, lo, hi, w, limit)
  }

  lemma {:induction false} FirstShortMonth(w: Window, k: int) returns (j: int)
    requires w.Valid() && w.after.month < k && DaysIn(k) < w.after.day
    ensures w.after.month < j <= k && DaysIn(j) < w.after.day
    ensures forall i :: w.after.month < i < j ==> w.after.day <= DaysIn(i)
    decreases k - w.after.month
  {
    if i :| w.after.month < i < k && DaysIn(i) < w.after.day {
      j := FirstShortMonth(w, i);
    } else {
      j := k;
    }
  }

  lemma {:induction false} LastShortMonth(w: Window, k: int) returns (j: int)
    requires w.Valid() && k < w.before.month && DaysIn(k) < w.before.day
    ensures k <= j < w.before.month && DaysIn(j) < w.before.day
    ensures forall i :: j < i < w.before.month ==> w.before.day <= DaysIn(i)
    decreases w.before.month - k
  {
    if i :| k < i < w.before.month && DaysIn(i) < w.before.day {
      j := LastShortMonth(w, i);
    } else {
      j := k;
    }
  }

  /** `LoadMessages` answers as the flat log would, for every store (that can be
      read forward, when that is the direction), exactly when every searched
      month has the cursor's day of month. Days 1 to 28 always qualify. */
  lemma LoadExact(w: Window, limit: nat)
    requires w.Valid() && FourDigitYears(w) && limit >= 1
    ensures AlwaysFlat(w, limit) <==> Safe(w)
    ensures Start(w).day <= 28 ==> Safe(w)
  {
    hide ValidFiles, AllReadable, Load, FlatLoad, Saved;
    if Safe(w) {
      forall files: Files, lo, hi | ValidFiles(files) && (w.forward ==> AllReadable(files))
        && Covers(files, lo, hi) && lo <= hi
        ensures Load(files, w, limit) == FlatLoad(files, lo, hi, w, limit)
      {
        LoadIsFlat(files, lo, hi, w, limit);
      }
    } else if w.forward {
      var k :| w.after.month < k && MonthStart(k) * SECOND < w.before.Instant() && DaysIn(k) < w.after.day;
      var j := FirstShortMonth(w, k);
      if j < k { MonthsIncrease(j, k); }
      ForwardSkipsAMonth(w, limit, j);
    } else {
      var k :| w.before.month - 12 <= k < w.before.month && DaysIn(k) < w.before.day;
      var j := LastShortMonth(w, k);
      BackwardRepeatsAMonth(w, limit, j + 1);
    }
  }

  // ---------------------------------------------------------------------
  // Lines above the token limit
  // ---------------------------------------------------------------------

  lemma PageSize(files: Files, w: Window, n: int, k: int)
    requires ValidFiles(files) && w.forward
    ensures |Page(files, w, n, k)| <= |Matching(files, w, k, k + 1)|
  {
    hide Within, ReadForward, FileEntries, ValidFiles, Matching, Page;
    PageIsPart(files, w, n, k);
    OneMonth(files, w, k);
  }

  lemma MatchingSizes(files: Files, w: Window, k: int, hi: int)
    requires k < hi
    ensures |Matching(files, w, k, hi)| == |Matching(files, w, k, k + 1)| + |Matching(files, w, k + 1, hi)|
  {
    hide Matching;
    MatchingConcat(files, w, k, k + 1, hi);
  }

  lemma NextMonthIs(t: Time)
    requires t.Valid() && t.day <= 28
    ensures t.AddMonths(1) == Time(t.month + 1, t.day, t.nanos)
  {
  }

  /** A forward walk finds no more than there is. */
  lemma {:induction false} WalkAtMost(files: Files, w: Window, limit: nat, cursor: Time, found: seq<Message>, hi: int)
    requires ValidFiles(files) && w.Valid() && w.forward && cursor.Valid() && cursor.day <= 28 && |found| <= limit
    requires forall k :: k in files ==> k < hi
    ensures |Walk(files, w, limit, cursor, found)| <= |found| + |Matching(files, w, cursor.month, hi)|
    decreases w.before.AddMonths(1).month - cursor.month
  {
    hide Matching, Page, InWindow, ValidFiles, DaysIn;
    if InWindow(w, cursor) {
      WalkTerminates(w, cursor);
      WalkStep(files, w, limit, cursor, found);
      NextMonthIs(cursor);
      var page := Page(files, w, limit + 1 - |found|, cursor.month);
      PageSize(files, w, limit + 1 - |found|, cursor.month);
      if cursor.month < hi {
        MatchingSizes(files, w, cursor.month, hi);
      } else {
        Beyond(files, w, limit + 1 - |found|, cursor.month, hi);
      }
      if |found + page| <= limit {
        WalkAtMost(files, w, limit, cursor.AddMonths(1), found + page, hi);
      }
    }
  }

  lemma Beyond(files: Files, w: Window, n: int, k: int, hi: int)
    requires hi <= k && k !in files
    ensures Page(files, w, n, k) == [] && Matching(files, w, k, hi) == [] && Matching(files, w, k + 1, hi) == []
  {
  }

  /** And without a month that it cannot read, less by that month. */
  lemma {:induction false} WalkLosesAMonth(files: Files, w: Window, limit: nat, cursor: Time,
      found: seq<Message>, k: int, hi: int)
    requires ValidFiles(files) && w.Valid() && w.forward && cursor.Valid() && cursor.day <= 28
    requires cursor.month <= k < hi && forall j :: j in files ==> j < hi
    requires |found| + |Matching(files, w, cursor.month, hi)| <= limit
    requires forall n: int :: n > |Matching(files, w, k, k + 1)| ==> Page(files, w, n, k) == []
    ensures |Walk(files, w, limit, cursor, found)|
      <= |found| + |Matching(files, w, cursor.month, hi)| - |Matching(files, w, k, k + 1)|
    decreases k - cursor.month
  {
    hide Matching, Page, InWindow, ValidFiles, DaysIn;
    MatchingSizes(files, w, cursor.month, hi);
    MatchingConcat(files, w, cursor.month, k, hi);
    MatchingConcat(files, w, k, k + 1, hi);
    if InWindow(w, cursor) {
      WalkStep(files, w, limit, cursor, found);
      NextMonthIs(cursor);
      var n := limit + 1 - |found|;
      var page := Page(files, w, n, cursor.month);
      PageSize(files, w, n, cursor.month);
      if cursor.month == k {
        assert page == [] && found + page == found;
        WalkAtMost(files, w, limit, cursor.AddMonths(1), found, hi);
      } else {
        WalkLosesAMonth(files, w, limit, cursor.AddMonths(1), found + page, k, hi);
      }
    }
  }

  /** A window from the month before a range to the month after it. */
  function WideWindow(lo: int, hi: int): Window { Window(Time(lo - 1, 1, 0), Time(hi + 1, 1, 0), true) }

  lemma WideIsSafe(lo: int, hi: int)
    ensures WideWindow(lo, hi).Valid() && Safe(WideWindow(lo, hi))
    ensures WideWindow(lo, hi).after.Instant() == MonthStart(lo - 1) * SECOND
    ensures WideWindow(lo, hi).before.Instant() == MonthStart(hi + 1) * SECOND
  {
  }

  lemma InWide(ts: int, lo: int, k: int, hi: int)
    requires InMonth(ts, k) && lo <= k < hi
    ensures MonthStart(lo - 1) < ts < MonthStart(hi + 1)
  {
    MonthsIncrease(lo - 1, k);
    if k + 1 < hi + 1 { MonthsIncrease(k + 1, hi + 1); }
  }

  lemma {:induction false} AllWithin(ms: seq<Message>, after: int, before: int)
    requires forall m :: m in ms ==> InRange(m, after, before)
    ensures Within(ms, after, before) == ms
  {
    if ms != [] {
      assert ms[0] in ms;
      AllWithin(ms[1..], after, before);
    }
  }

  lemma LongLineIsMet(content: string)
    requires !TokensFit(content)
    ensures FirstLong(RawLines(content)) < |RawLines(content)|
  {
    var lines := Lines(content);
    var i :| 0 <= i < |lines| && |lines[i]| >= TOKEN_LIMIT;
    assert i < |RawLines(content)| && RawLines(content)[i] == lines[i];
  }

  lemma UnreadableFails(content: string, lo: int, k: int, hi: int, n: int)
    requires FileOk(content, k) && !TokensFit(content) && lo <= k < hi
    requires n > |Entries(Lines(content))|
    ensures var w := WideWindow(lo, hi);
      ReadForward(content, w.after.Instant(), w.before.Instant(), n) == None
  {
    hide Entries, Within, Lines, RawLines, ScanLines, TokensFit, DropCR, Sorted, FirstDay;
    var w := WideWindow(lo, hi);
    WideIsSafe(lo, hi);
    SameLines(content);
    LongLineIsMet(content);
    var all := Entries(Lines(content));
    forall m | m in all ensures m.ts * SECOND < w.before.Instant() { InWide(m.ts, lo, k, hi); }
    LongLineFails(content, w.after.Instant(), w.before.Instant(), n);
  }

  lemma LongLineFails(content: string, after: int, before: int, n: int)
    requires FirstLong(RawLines(content)) < |RawLines(content)| && n > |Entries(ScanLines(content))|
    requires forall m :: m in Entries(ScanLines(content)) ==> m.ts * SECOND < before
    ensures ScanFails(content, after, before, n)
  {
    hide Entries, Within, RawLines, ScanLines, DropCR;
    var i, lines := FirstLong(RawLines(content)), ScanLines(content);
    assert lines[..|lines|] == lines;
    EntriesGrow(lines, i, |lines|, after, before);
    WithinSize(Entries(lines), after, before);
  }

  lemma {:induction false} WithinSize(ms: seq<Message>, after: int, before: int)
    ensures |Within(ms, after, before)| <= |ms|
  {
    if ms != [] { WithinSize(ms[1..], after, before); }
  }

  lemma UnreadableMonth(files: Files, lo: int, k: int, hi: int)
    requires ValidFiles(files) && k in files && lo <= k < hi && !Readable(files[k])
    ensures var w := WideWindow(lo, hi);
      && |Matching(files, w, k, k + 1)| > 0
      && forall n: int :: n > |Matching(files, w, k, k + 1)| ==> Page(files, w, n, k) == []
  {
    hide Entries, Within, Lines, TokensFit, ReadForward, MonthStart, Sorted;
    var w := WideWindow(lo, hi);
    WideIsSafe(lo, hi);
    var all := Entries(Lines(files[k]));
    assert FileOk(files[k], k);
    forall m | m in all ensures InRange(m, w.after.Instant(), w.before.Instant()) { InWide(m.ts, lo, k, hi); }
    AllWithin(all, w.after.Instant(), w.before.Instant());
    OneMonth(files, w, k);
    assert Matching(files, w, k, k + 1) == all;
    forall n: int | n > |all| ensures Page(files, w, n, k) == [] { UnreadableFails(files[k], lo, k, hi, n); }
  }

  /** A month with messages and a line above the token limit is dropped from some
      answer. */
  lemma UnreadableIsLost(files: Files, lo: int, k: int, hi: int) returns (w: Window, limit: nat)
    requires ValidFiles(files) && Covers(files, lo, hi) && k in files && !Readable(files[k])
    ensures w.Valid() && w.forward && Safe(w) && limit >= 1
    ensures Load(files, w, limit) != FlatLoad(files, lo, hi, w, limit)
  {
    hide Entries, Within, Lines, Readable, Page, Walk, ValidFiles, AllMessages;
    w := WideWindow(lo, hi);
    WideIsSafe(lo, hi);
    UnreadableMonth(files, lo, k, hi);
    limit := |Matching(files, w, lo, hi)| + 1;
    CoverIsEnough(files, lo, hi, lo - 1, hi);
    WalkLosesAMonth(files, w, limit, w.after, [], k, hi);
  }

  /** Going forward, a store is read as its flat log, in every safe window and with
      every limit, exactly when no month with messages has a line above the token
      limit. */
  lemma ForwardIsExact(files: Files, lo: int, hi: int)
    requires ValidFiles(files) && Covers(files, lo, hi) && lo <= hi
    ensures (forall w: Window, limit: nat :: w.Valid() && w.forward && Safe(w) && limit >= 1 ==>
               Load(files, w, limit) == FlatLoad(files, lo, hi, w, limit))
      <==> AllReadable(files)
  {
    hide ValidFiles, Load, FlatLoad, Safe, Covers, Readable;
    if AllReadable(files) {
      forall w: Window, limit: nat | w.Valid() && w.forward && Safe(w) && limit >= 1
        ensures Load(files, w, limit) == FlatLoad(files, lo, hi, w, limit)
      {
        LoadIsFlat(files, lo, hi, w, limit);
      }
    } else {
      var k :| k in files && !Readable(files[k]);
      var w, limit := UnreadableIsLost(files, lo, k, hi);
    }
  }

  /** One message whose line reaches the limit: saved alone, no forward query ever
      finds it, whatever the limit. */
  lemma LongMessageIsHidden(m: Message, w: Window, limit: nat)
    requires Storable(m) && |FormatLine(m)| >= 65536
    requires w.Valid() && w.forward && InRange(m, w.after.Instant(), w.before.Instant()) && limit >= 1
    ensures var files, k := Saved(map[], m), FromUnix(m.ts).month;
      && ValidFiles(files) && Load(files, w, limit) == Result([], true)
      && FlatLoad(files, k, k + 1, w, limit) == Result([m], true)
  {
    hide Storable, FormatLine, InRange, FlatLoad, Lines, Entries, ValidFiles, FileEntries, FromUnix, Saved, Page, Walk;
    SaveFirst(m);
    var files := Saved(map[], m);
    SampleFlat(files, FromUnix(m.ts).month, w, limit, m);
    HiddenPages(m, w);
    EmptyWalk(files, w, limit, w.after);
  }

  lemma SaveFirst(m: Message)
    requires Storable(m)
    ensures Stampable(FromUnix(m.ts))
    ensures ValidFiles(Saved(map[], m)) && FileEntries(Saved(map[], m), FromUnix(m.ts).month) == [m]
  {
    SaveInFile(map[], m);
  }

  lemma HiddenPages(m: Message, w: Window)
    requires Storable(m) && |FormatLine(m)| >= TOKEN_LIMIT && w.forward
    ensures forall n: int, k :: n >= 1 ==> Page(Saved(map[], m), w, n, k) == []
  {
    var line := FormatLine(m);
    AppendLine("", line);
    NoNewlineInLine(m);
    hide Storable, FormatLine, ScanFails;
    var content := "" + line + "\n";
    OneLongLine(content, line, w.after.Instant(), w.before.Instant());
  }

  lemma OneLongLine(content: string, line: string, after: int, before: int)
    requires Lines(content) == [line, ""] && |line| >= TOKEN_LIMIT
    ensures forall n: int :: n >= 1 ==> ScanFails(content, after, before, n)
  {
    assert RawLines(content) == [line];
    assert ScanLines(content)[..0] == [];
  }

  lemma {:induction false} EmptyWalk(files: Files, w: Window, limit: nat, cursor: Time)
    requires w.Valid() && w.forward && cursor.Valid()
    requires forall n: int, k :: n >= 1 ==> Page(files, w, n, k) == []
    ensures Walk(files, w, limit, cursor, []) == []
    decreases w.before.AddMonths(1).month - cursor.month
  {
    hide Page, InWindow;
    if InWindow(w, cursor) {
      WalkTerminates(w, cursor);
      WalkStep(files, w, limit, cursor, []);
      EmptyWalk(files, w, limit, cursor.AddMonths(1));
    }
  }

  /** The lines read before a file's first long one hold, within one second, at most
      as many messages as a query asks for, and nothing later. */
  ghost predicate Hides(content: string, m: Message, limit: nat) {
    var i := FirstLong(RawLines(content));
    var read := Entries(ScanLines(content)[..i]);
    && i < |RawLines(content)| && (forall x :: x in read ==> x.ts <= m.ts)
    && |Within(read, m.ts * SECOND - 1, m.ts * SECOND + 1)| <= limit
  }

  /** The window around one second that begins in its own month. */
  lemma SecondWindow(m: Message, k: int) returns (w: Window)
    requires InMonth(m.ts, k) && MonthStart(k) < m.ts
    ensures w.Valid() && w.forward && Safe(w) && w.after.month == k
    ensures w.after.Instant() == m.ts * SECOND - 1 && w.before.Instant() == m.ts * SECOND + 1
    ensures forall j :: k < j ==> MonthStart(j) * SECOND >= w.before.Instant()
  {
    var t, before := FromUnix(m.ts), FromUnix(m.ts - 1);
    MonthIsUnique(m.ts, k, t.month);
    MonthIsUnique(m.ts - 1, k, before.month);
    w := Window(before.(nanos := before.nanos + SECOND - 1), t.(nanos := t.nanos + 1), true);
    hide DaysIn, FirstDay;
    forall j | k < j ensures MonthStart(j) * SECOND >= w.before.Instant() {
      if k + 1 < j { MonthsIncrease(k + 1, j); }
    }
  }

  /** With any limit that a query may have: if what is read before a long line fits
      the limit within the second of one of the month's messages, and is not later,
      then the query for that second, in a safe window, finds nothing. */
  lemma LongLineHidesASecond(files: Files, lo: int, hi: int, k: int, m: Message, limit: nat) returns (w: Window)
    requires ValidFiles(files) && Covers(files, lo, hi) && k in files && limit >= 1
    requires m in FileEntries(files, k) && MonthStart(k) < m.ts && Hides(files[k], m, limit)
    ensures w.Valid() && w.forward && Safe(w) && InRange(m, w.after.Instant(), w.before.Instant())
    ensures Load(files, w, limit) == Result([], true)
    ensures FlatLoad(files, lo, hi, w, limit).messages != []
  {
    hide Entries, Lines, Within, Sorted, Covers, MonthStart, ReadForward;
    assert FileOk(files[k], k);
    w := SecondWindow(m, k);
    HiddenPage(files[k], m, limit);
    FoundFlat(files, lo, hi, k, m, w, limit);
    hide ValidFiles, FileEntries, Hides, Safe;
    LoadsNothing(files, w, limit, k);
  }

  lemma HiddenPage(content: string, m: Message, limit: nat)
    requires Hides(content, m, limit)
    ensures ReadForward(content, m.ts * SECOND - 1, m.ts * SECOND + 1, limit + 1) == None
  {
    hide Entries, Within, RawLines, ScanLines;
  }

  lemma {:induction false} WithinHas(ms: seq<Message>, m: Message, after: int, before: int)
    requires m in ms && InRange(m, after, before)
    ensures m in Within(ms, after, before)
  {
    if ms[0] != m { WithinHas(ms[1..], m, after, before); }
  }

  lemma FoundFlat(files: Files, lo: int, hi: int, k: int, m: Message, w: Window, limit: nat)
    requires Covers(files, lo, hi) && k in files && m in FileEntries(files, k) && limit >= 1
    requires InRange(m, w.after.Instant(), w.before.Instant())
    ensures FlatLoad(files, lo, hi, w, limit).messages != []
  {
    hide InRange, Within, FileEntries, AllMessages, Entries, Lines;
    InLog(files, lo, hi, k);
    WithinHas(AllMessages(files, lo, hi), m, w.after.Instant(), w.before.Instant());
  }

  lemma LoadsNothing(files: Files, w: Window, limit: nat, k: int)
    requires ValidFiles(files) && w.Valid() && w.forward && w.after.month == k && k in files && limit >= 1
    requires forall j :: k < j ==> MonthStart(j) * SECOND >= w.before.Instant()
    requires Page(files, w, limit + 1, k) == []
    ensures Load(files, w, limit) == Result([], true)
  {
    hide ValidFiles, Page, MonthStart, InWindow, Walk;
    if InWindow(w, w.after) {
      WalkStep(files, w, limit, w.after, []);
      WalkTerminates(w, w.after);
      PastTheEnd(files, w, limit, w.after.AddMonths(1), []);
    } else {
      WalkEnd(files, w, limit, w.after, []);
    }
  }

  // ---------------------------------------------------------------------
  // What each kind of query is answered
  // ---------------------------------------------------------------------

  lemma {:induction false} AllSorted(files: Files, lo: int, hi: int)
    requires ValidFiles(files)
    ensures Sorted(AllMessages(files, lo, hi))
    ensures forall m :: m in AllMessages(files, lo, hi) ==> MonthStart(lo) <= m.ts
    decreases hi - lo
  {
    hide Entries, Lines, FirstDay;
    if lo < hi {
      AllSorted(files, lo + 1, hi);
      NextMonth(lo);
      var here, rest := FileEntries(files, lo), AllMessages(files, lo + 1, hi);
      var all: seq<Message> := here + rest;
      forall i, j | 0 <= i < j < |all| ensures all[i].ts <= all[j].ts {
        if i < |here| <= j {
          assert here[i] in here && rest[j - |here|] in rest;
          assert InMonth(here[i].ts, lo);
        }
      }
    }
  }

  /** The flat log of a store, in time order. */
  ghost function Log(files: Files, lo: int, hi: int): (log: seq<Message>)
    requires ValidFiles(files)
    ensures log == AllMessages(files, lo, hi) && Sorted(log)
  {
    AllSorted(files, lo, hi);
    AllMessages(files, lo, hi)
  }

  /** The messages strictly between two instants are log[p..q]. */
  ghost predicate Between(log: seq<Message>, after: int, before: int, p: nat, q: nat) {
    p <= q <= |log| && forall i :: 0 <= i < |log| ==> (p <= i < q <==> after < log[i].ts * SECOND < before)
  }

  lemma {:induction false} WithinIsSlice(log: seq<Message>, after: int, before: int) returns (p: nat, q: nat)
    requires Sorted(log)
    ensures Between(log, after, before, p, q) && Within(log, after, before) == log[p..q]
  {
    if log == [] {
      p, q := 0, 0;
    } else {
      var rest := log[1..];
      assert forall i :: 0 <= i < |rest| ==> rest[i] == log[i + 1];
      var a, b := WithinIsSlice(rest, after, before);
      if InRange(log[0], after, before) {
        if a < b { assert log[0].ts <= rest[0].ts <= rest[a].ts; }
        p, q := 0, if a < b then b + 1 else 1;
        assert log[0..q] == [log[0]] + rest[a..b];
      } else {
        p, q := a + 1, b + 1;
        assert log[p..q] == rest[a..b];
      }
    }
  }

  /** `result` is the first or the last `limit` messages of a log strictly between
      two instants, and says whether those are all of them. */
  ghost predicate IsAnswer(result: Result, log: seq<Message>, after: int, before: int, limit: int, first: bool) {
    exists p: nat, q: nat :: Between(log, after, before, p, q) && limit >= 1 && result ==
      if q - p <= limit then Result(log[p..q], true)
      else Result(if first then log[p..p + limit] else log[q - limit..q], false)
  }

  lemma FlatIsAnswer(files: Files, lo: int, hi: int, query: Query, now: Time)
    requires ValidFiles(files) && Covers(files, lo, hi) && lo <= hi && query.Valid() && now.Valid()
    requires Safe(WindowOf(query, now)) && (query.after.Some? ==> AllReadable(files))
    ensures var w := WindowOf(query, now);
      IsAnswer(Asked(files, query, now), Log(files, lo, hi), w.after.Instant(), w.before.Instant(),
               if 1 <= query.limit <= 200 then query.limit else 60, query.after.Some?)
  {
    hide Entries, Lines, ValidFiles, AllReadable, AllMessages, Within, Load, Safe, Sorted, Covers, WindowOf, Between;
    var w, log := WindowOf(query, now), Log(files, lo, hi);
    LoadIsFlat(files, lo, hi, w, EffectiveLimit(query.limit));
    var p, q := WithinIsSlice(log, w.after.Instant(), w.before.Instant());
    hide FlatLoad;
    AnswerOfSlice(files, lo, hi, w, EffectiveLimit(query.limit), p, q);
  }

  lemma AnswerOfSlice(files: Files, lo: int, hi: int, w: Window, limit: nat, p: nat, q: nat)
    requires ValidFiles(files) && limit >= 1
    requires Between(Log(files, lo, hi), w.after.Instant(), w.before.Instant(), p, q)
    requires Within(Log(files, lo, hi), w.after.Instant(), w.before.Instant()) == Log(files, lo, hi)[p..q]
    ensures IsAnswer(FlatLoad(files, lo, hi, w, limit), Log(files, lo, hi), w.after.Instant(), w.before.Instant(),
                     limit, w.forward)
  {
    hide ValidFiles, AllMessages, Within;
    var log := Log(files, lo, hi);
    var hits := log[p..q];
    if |hits| > limit {
      assert hits[..limit] == log[p..p + limit] && hits[|hits| - limit..] == log[q - limit..q];
    }
  }

  /** `before`, or `around` in its place: the last messages before that time and
      after the same time a year earlier. */
  lemma OlderMessages(files: Files, lo: int, hi: int, query: Query, now: Time, before: Time)
    requires ValidFiles(files) && Covers(files, lo, hi) && lo <= hi && query.Valid() && now.Valid()
    requires query.before == Some(before) || (query.before.None? && query.around == Some(before))
    requires query.after.None? && Safe(Window(before.AddYears(-1), before, false))
    ensures IsAnswer(Asked(files, query, now), Log(files, lo, hi), before.AddYears(-1).Instant(), before.Instant(),
                     if 1 <= query.limit <= 200 then query.limit else 60, false)
  {
    hide ValidFiles, AllMessages, Safe, Covers, Asked, Log, IsAnswer;
    FlatIsAnswer(files, lo, hi, query, now);
  }

  /** No cursor: the last messages up to ten seconds from now. */
  lemma LatestMessages(files: Files, lo: int, hi: int, query: Query, now: Time)
    requires ValidFiles(files) && Covers(files, lo, hi) && lo <= hi && query.Valid() && now.Valid()
    requires query.before.None? && query.around.None? && query.after.None?
    requires var soon := now.AddSeconds(10); Safe(Window(soon.AddYears(-1), soon, false))
    ensures var soon := now.AddSeconds(10);
      IsAnswer(Asked(files, query, now), Log(files, lo, hi), soon.AddYears(-1).Instant(), now.Instant() + 10 * SECOND,
               if 1 <= query.limit <= 200 then query.limit else 60, false)
  {
    hide ValidFiles, AllMessages, Safe, Covers, Asked, Log, IsAnswer;
    FlatIsAnswer(files, lo, hi, query, now);
    InstantIsInjective(WindowOf(query, now).before, now.AddSeconds(10));
  }

  /** `after` alone: the first messages after that time, for a year and at most until
      a month from now. */
  lemma NewerMessages(files: Files, lo: int, hi: int, query: Query, now: Time, after: Time, end: Time)
    requires ValidFiles(files) && AllReadable(files) && Covers(files, lo, hi) && lo <= hi
    requires query.Valid() && now.Valid()
    requires query.before.None? && query.around.None? && query.after == Some(after)
    requires end == (if now.AddMonths(1).Instant() < after.AddYears(1).Instant()
                     then now.AddMonths(1) else after.AddYears(1))
    requires Safe(Window(after, end, true))
    ensures IsAnswer(Asked(files, query, now), Log(files, lo, hi), after.Instant(), end.Instant(),
                     if 1 <= query.limit <= 200 then query.limit else 60, true)
  {
    hide ValidFiles, AllReadable, AllMessages, Safe, Covers, Asked, Log, IsAnswer;
    InstantIsInjective(WindowOf(query, now).before, end);
    FlatIsAnswer(files, lo, hi, query, now);
  }

  /** Both: the first messages between the two. */
  lemma MessagesBetween(files: Files, lo: int, hi: int, query: Query, now: Time, after: Time, before: Time)
    requires ValidFiles(files) && AllReadable(files) && Covers(files, lo, hi) && lo <= hi
    requires query.Valid() && now.Valid()
    requires query.before == Some(before) || (query.before.None? && query.around == Some(before))
    requires query.after == Some(after) && Safe(Window(after, before, true))
    ensures IsAnswer(Asked(files, query, now), Log(files, lo, hi), after.Instant(), before.Instant(),
                     if 1 <= query.limit <= 200 then query.limit else 60, true)
  {
    hide ValidFiles, AllReadable, AllMessages, Safe, Covers, Asked, Log, IsAnswer;
    FlatIsAnswer(files, lo, hi, query, now);
  }

  // ---------------------------------------------------------------------
  // From saving to asking
  // ---------------------------------------------------------------------

  /** A message that comes back from the log of its month, whatever reader is used. */
  ghost predicate Keepable(m: Message, lo: int, hi: int) {
    Storable(m) && |FormatLine(m)| < TOKEN_LIMIT && lo <= FromUnix(m.ts).month < hi
  }

  ghost predicate AllKeepable(ms: seq<Message>, lo: int, hi: int) { forall m :: m in ms ==> Keepable(m, lo, hi) }

  ghost function SavedBy(files: Files, m: Message, lo: int, hi: int): Files
    requires Keepable(m, lo, hi)
  {
    Saved(files, m)
  }

  /** The store after saving some messages, one after the other. */
  ghost function SavedAll(ms: seq<Message>, lo: int, hi: int): Files
    requires AllKeepable(ms, lo, hi)
  {
    if ms == [] then map[]
    else
      assert Keepable(ms[|ms| - 1], lo, hi);
      SavedBy(SavedAll(ms[..|ms| - 1], lo, hi), ms[|ms| - 1], lo, hi)
  }

  ghost predicate GoodStore(files: Files, lo: int, hi: int) {
    ValidFiles(files) && Covers(files, lo, hi) && AllReadable(files) && forall k :: k in files ==> TokensFit(files[k])
  }

  /** Messages saved in time order are the flat log of the store, so the answers
      above are about the very messages that were saved. */
  lemma {:induction false} SavedInOrder(ms: seq<Message>, lo: int, hi: int)
    requires Sorted(ms) && AllKeepable(ms, lo, hi)
    ensures GoodStore(SavedAll(ms, lo, hi), lo, hi)
    ensures AllMessages(SavedAll(ms, lo, hi), lo, hi) == ms
  {
    hide *;
    if ms == [] {
      NothingSaved(lo, hi);
    } else {
      var front, m := ms[..|ms| - 1], ms[|ms| - 1];
      assert ms == front + [m];
      LastSaved(front, m, lo, hi);
      SavedInOrder(front, lo, hi);
      SaveOne(SavedAll(front, lo, hi), lo, hi, m);
    }
  }

  lemma LastSaved(front: seq<Message>, m: Message, lo: int, hi: int)
    requires Sorted(front + [m]) && AllKeepable(front + [m], lo, hi)
    ensures Sorted(front) && AllKeepable(front, lo, hi) && Keepable(m, lo, hi)
    ensures forall x :: x in front ==> x.ts <= m.ts
    ensures SavedAll(front + [m], lo, hi) == SavedBy(SavedAll(front, lo, hi), m, lo, hi)
  {
    hide Keepable, Saved;
    var ms := front + [m];
    assert ms[..|ms| - 1] == front && ms[|ms| - 1] == m;
    assert forall x :: x in front ==> x in ms;
    assert m in ms;
    forall i, j | 0 <= i < j < |front| ensures front[i].ts <= front[j].ts { assert ms[i].ts <= ms[j].ts; }
    forall x | x in front ensures x.ts <= m.ts {
      var i :| 0 <= i < |front| && front[i] == x;
      assert ms[i].ts <= ms[|front|].ts;
    }
  }

  lemma SaveOne(files: Files, lo: int, hi: int, m: Message)
    requires GoodStore(files, lo, hi) && Keepable(m, lo, hi)
    requires forall x :: x in AllMessages(files, lo, hi) ==> x.ts <= m.ts
    ensures GoodStore(SavedBy(files, m, lo, hi), lo, hi)
    ensures AllMessages(SavedBy(files, m, lo, hi), lo, hi) == AllMessages(files, lo, hi) + [m]
  {
    hide Storable, ValidFiles, Readable, TokensFit, AllMessages, FromUnix, Saved, FormatLine;
    SaveAppends(files, lo, hi, m);
    SaveFits(files, lo, hi, m);
  }

  lemma NothingSaved(lo: int, hi: int)
    ensures GoodStore(SavedAll([], lo, hi), lo, hi) && AllMessages(SavedAll([], lo, hi), lo, hi) == []
  {
    NoFiles(map[], lo, hi);
  }

  lemma SaveFits(files: Files, lo: int, hi: int, m: Message)
    requires GoodStore(files, lo, hi) && Keepable(m, lo, hi)
    requires forall x :: x in AllMessages(files, lo, hi) ==> x.ts <= m.ts
    ensures var files' := SavedBy(files, m, lo, hi);
      AllReadable(files') && forall k :: k in files' ==> TokensFit(files'[k])
  {
    hide Sendable, FormatBody, DropCR, Stampable, ValidFiles, TokensFit, FormatLine, AllMessages;
    hide FromUnix, Saved, FileEntries;
    var k, files' := FromUnix(m.ts).month, Saved(files, m);
    InLog(files, lo, hi, k);
    EmptyFits();
    SaveInFile(files, m);
    SavedKeys(files, m);
    assert FileEntries(files', k) != [];
    FitsByReading(files', k);
    forall j | j in files' ensures TokensFit(files'[j]) && Readable(files'[j]) {
      if j != k { assert files'[j] == files[j]; }
    }
  }

  lemma FitsByReading(files: Files, k: int)
    requires k in files && FileEntries(files, k) != [] && Readable(files[k])
    ensures TokensFit(files[k])
  {
    hide Entries, Lines, TokensFit;
  }

  lemma EmptyFits()
    ensures TokensFit("")
  {
  }

  /** The messages of one month are in the flat log. */
  lemma InLog(files: Files, lo: int, hi: int, k: int)
    requires lo <= k < hi
    ensures forall m :: m in FileEntries(files, k) ==> m in AllMessages(files, lo, hi)
  {
    hide FileEntries;
    AllConcat(files, lo, k, hi);
  }
}
