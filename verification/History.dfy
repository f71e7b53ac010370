/** `LoadMessages` over monthly log files. The method walks calendar months
    with `AddDate`, reads one page per file and trims. It is proved equal to a
    walk over values, and the walk is compared with the obvious answer on one
    flat chronological log: exactly for which cursors they agree is
    `LoadExact`. */
module History {
  import opened Calendar
  import opened Text
  import opened LogFormat
  import opened LogReader

  /** The log files of one conversation, by month number. */
  type Files = map<int, string>

  // ---------------------------------------------------------------------
  // The store
  // ---------------------------------------------------------------------

  /** A log file: complete lines in time order, all of the file's own month. */
  ghost predicate FileOk(content: string, month: int) {
    && (content == "" || content[|content| - 1] == '\n')
    && (forall line :: line in Lines(content) ==> DropCR(line) == line)
    && Sorted(Entries(Lines(content)))
    && forall m :: m in Entries(Lines(content)) ==> InMonth(m.ts, month)
  }

  ghost predicate ValidFiles(files: Files) {
    forall k :: k in files ==> FileOk(files[k], k)
  }

  predicate TokensFit(content: string) { forall line :: line in Lines(content) ==> |line| < TOKEN_LIMIT }

  /** No line exceeds what the forward reader can take, unless the file holds no
      message at all. */
  predicate Readable(content: string) { TokensFit(content) || Entries(Lines(content)) == [] }

  predicate AllReadable(files: Files) { forall k :: k in files ==> Readable(files[k]) }

  function FileEntries(files: Files, month: int): seq<Message> {
    if month in files then Entries(Lines(files[month])) else []
  }

  /** One flat log: the messages of the months lo, ..., hi - 1. */
  function AllMessages(files: Files, lo: int, hi: int): seq<Message>
    decreases hi - lo
  {
    if lo >= hi then [] else FileEntries(files, lo) + AllMessages(files, lo + 1, hi)
  }

  ghost predicate Covers(files: Files, lo: int, hi: int) {
    forall k :: k in files ==> lo <= k < hi
  }

  // ---------------------------------------------------------------------
  // Queries
  // ---------------------------------------------------------------------

  datatype Query = Query(before: Option<Time>, after: Option<Time>, around: Option<Time>, limit: int) {
    ghost predicate Valid() {
      && (before.Some? ==> before.value.Valid())
      && (after.Some? ==> after.value.Valid())
      && (around.Some? ==> around.value.Valid())
    }
  }

  /** The open interval that is searched, and the direction. */
  datatype Window = Window(after: Time, before: Time, forward: bool) {
    /** Backward windows always span the year before their cursor. */
    ghost predicate Valid() {
      && after.Valid() && before.Valid()
      && (!forward ==> after == before.AddYears(-1))
    }
  }

  function EffectiveLimit(limit: int): (n: int)
    ensures 1 <= n <= 200
  {
    if limit <= 0 || limit > 200 then 60 else limit
  }

  /** The `before` cursor, for which `around` stands in. */
  function BeforeOf(query: Query): (cursor: Option<Time>)
    ensures cursor == if query.before.Some? then query.before else query.around
  {
    if query.around.Some? && query.before.None? then query.around else query.before
  }

  function WindowOf(query: Query, now: Time): (w: Window)
    requires query.Valid() && now.Valid()
    ensures w.Valid() && (w.forward <==> query.after.Some?)
    ensures query.after.Some? ==> w.after == query.after.value
    ensures BeforeOf(query).Some? ==> w.before == BeforeOf(query).value
    ensures BeforeOf(query).None? && query.after.None? ==> w.before.Instant() == now.Instant() + 10 * SECOND
    ensures BeforeOf(query).None? && query.after.Some? ==>
      var year, month := query.after.value.AddYears(1), now.AddMonths(1);
      w.before in {year, month} && w.before.Instant() <= year.Instant() && w.before.Instant() <= month.Instant()
  {
    var cursor := BeforeOf(query);
    if cursor.Some? && query.after.Some? then
      Window(query.after.value, cursor.value, true)
    else if cursor.Some? then
      Window(cursor.value.AddYears(-1), cursor.value, false)
    else if query.after.Some? then
      var year, future := query.after.value.AddYears(1), now.AddMonths(1);
      Window(query.after.value, if year.Instant() > future.Instant() then future else year, true)
    else
      var soon := now.AddSeconds(10);
      Window(soon.AddYears(-1), soon, false)
  }

  datatype Result = Result(messages: seq<Message>, end: bool)

  // ---------------------------------------------------------------------
  // The walk
  // ---------------------------------------------------------------------

  predicate InWindow(w: Window, cursor: Time)
    requires w.Valid()
  {
    cursor.Instant() >= w.after.Instant() && cursor.Instant() <= w.before.AddMonths(1).Instant()
  }

  function Step(w: Window): int { if w.forward then 1 else -1 }

  /** A month whose file cannot be read counts as empty. */
  function Page(files: Files, w: Window, n: int, month: int): seq<Message> {
    if month !in files then []
    else if w.forward then
      match ReadForward(files[month], w.after.Instant(), w.before.Instant(), n)
      case None => []
      case Some(ms) => ms
    else
      LastN(Within(Entries(Lines(files[month])), w.after.Instant(), w.before.Instant()), n)
  }

  function Stitch(w: Window, found: seq<Message>, page: seq<Message>): seq<Message> {
    if w.forward then found + page else page + found
  }

  /** The cursor moves towards the far end of the window, for every start date. */
  lemma WalkTerminates(w: Window, cursor: Time)
    requires w.Valid() && cursor.Valid() && InWindow(w, cursor)
    ensures var next := cursor.AddMonths(Step(w));
      if w.forward then cursor.month < next.month && cursor.month <= w.before.AddMonths(1).month
      else
        && w.after.month <= cursor.month
        && (next.month < cursor.month || (next.month == cursor.month && next.day < cursor.day))
  {
    if w.forward {
      if w.before.AddMonths(1).month < cursor.month { LaterMonth(w.before.AddMonths(1), cursor); }
    } else {
      if cursor.month < w.after.month { LaterMonth(cursor, w.after); }
    }
  }

  function Walk(files: Files, w: Window, limit: nat, cursor: Time, found: seq<Message>): seq<Message>
    requires w.Valid() && cursor.Valid()
    decreases if w.forward then w.before.AddMonths(1).month - cursor.month else cursor.month - w.after.month, cursor.day
  {
    if InWindow(w, cursor) then
      var found' := Stitch(w, found, Page(files, w, limit + 1 - |found|, cursor.month));
      if |found'| > limit then found'
      else
        WalkTerminates(w, cursor);
        Walk(files, w, limit, cursor.AddMonths(Step(w)), found')
    else found
  }

  lemma WalkStep(files: Files, w: Window, limit: nat, cursor: Time, found: seq<Message>)
    requires w.Valid() && cursor.Valid() && InWindow(w, cursor)
    ensures var found' := Stitch(w, found, Page(files, w, limit + 1 - |found|, cursor.month));
      Walk(files, w, limit, cursor, found) ==
      if |found'| > limit then found' else Walk(files, w, limit, cursor.AddMonths(Step(w)), found')
  {
    hide InWindow, Page;
  }

  lemma WalkEnd(files: Files, w: Window, limit: nat, cursor: Time, found: seq<Message>)
    requires w.Valid() && cursor.Valid() && !InWindow(w, cursor)
    ensures Walk(files, w, limit, cursor, found) == found
  {
  }

  function Start(w: Window): Time { if w.forward then w.after else w.before }

  function Trim(w: Window, found: seq<Message>, limit: nat): Result {
    if |found| > limit then
      Result(if w.forward then found[..limit] else found[|found| - limit..], false)
    else Result(found, true)
  }

  function Load(files: Files, w: Window, limit: nat): Result
    requires w.Valid()
  {
    Trim(w, Walk(files, w, limit, Start(w), []), limit)
  }

  /** What a query is answered. */
  function Asked(files: Files, query: Query, now: Time): Result
    requires query.Valid() && now.Valid()
  {
    Load(files, WindowOf(query, now), EffectiveLimit(query.limit))
  }

  // ---------------------------------------------------------------------
  // Nothing outside the window
  // ---------------------------------------------------------------------

  lemma {:induction false} WithinIsInRange(ms: seq<Message>, after: int, before: int)
    ensures forall m :: m in Within(ms, after, before) ==> m in ms && InRange(m, after, before)
  {
    hide InRange;
    if ms != [] {
      WithinIsInRange(ms[1..], after, before);
    }
  }

  lemma PageIsInside(files: Files, w: Window, n: int, month: int)
    ensures forall m :: m in Page(files, w, n, month) ==> InRange(m, w.after.Instant(), w.before.Instant())
  {
    hide Entries, Lines, Within, InRange, ScanFails, ScanLines;
    if month in files {
      WithinIsInRange(Entries(Lines(files[month])), w.after.Instant(), w.before.Instant());
      WithinIsInRange(Entries(ScanLines(files[month])), w.after.Instant(), w.before.Instant());
    }
  }

  lemma {:induction false} WalkIsInside(files: Files, w: Window, limit: nat, cursor: Time, found: seq<Message>)
    requires w.Valid() && cursor.Valid()
    requires forall m :: m in found ==> InRange(m, w.after.Instant(), w.before.Instant())
    ensures forall m :: m in Walk(files, w, limit, cursor, found) ==>
      InRange(m, w.after.Instant(), w.before.Instant())
    decreases if w.forward then w.before.AddMonths(1).month - cursor.month else cursor.month - w.after.month, cursor.day
  {
    hide InRange, Page, InWindow, Walk;
    if InWindow(w, cursor) {
      var found' := Stitch(w, found, Page(files, w, limit + 1 - |found|, cursor.month));
      PageIsInside(files, w, limit + 1 - |found|, cursor.month);
      WalkStep(files, w, limit, cursor, found);
      WalkTerminates(w, cursor);
      if |found'| <= limit { WalkIsInside(files, w, limit, cursor.AddMonths(Step(w)), found'); }
    } else {
      WalkEnd(files, w, limit, cursor, found);
    }
  }

  /** An answer lies strictly between the cursors of its query and within its
      limit, or 60 for a limit that is not from 1 to 200. */
  ghost predicate Obeys(result: Result, query: Query, now: Time) {
    && (forall m :: m in result.messages ==>
          && (query.before.Some? ==> m.ts * SECOND < query.before.value.Instant())
          && (query.before.None? && query.around.Some? ==> m.ts * SECOND < query.around.value.Instant())
          && (query.after.Some? ==> query.after.value.Instant() < m.ts * SECOND)
          && (query.before.None? && query.around.None? && query.after.None? ==>
                m.ts * SECOND < now.Instant() + 10 * SECOND))
    && |result.messages| <= if 1 <= query.limit <= 200 then query.limit else 60
  }

  lemma AskedObeys(files: Files, query: Query, now: Time)
    requires query.Valid() && now.Valid()
    ensures Obeys(Asked(files, query, now), query, now)
  {
    hide Walk, WindowOf;
    var w, limit := WindowOf(query, now), EffectiveLimit(query.limit);
    WalkIsInside(files, w, limit, Start(w), []);
    assert forall m :: m in Asked(files, query, now).messages ==> m in Walk(files, w, limit, Start(w), []);
  }

  /** What `LoadMessages` is for: the first (forward) or last (backward)
      `limit` messages of the flat log strictly inside the window, and whether
      those are all of them. */
  function FlatLoad(files: Files, lo: int, hi: int, w: Window, limit: nat): Result {
    var matching := Within(AllMessages(files, lo, hi), w.after.Instant(), w.before.Instant());
    Result(if w.forward then FirstN(matching, limit) else LastN(matching, limit), |matching| <= limit)
  }

  /** The files after one message was appended to the log of its month. */
  function Saved(files: Files, m: Message): Files
    requires Stampable(FromUnix(m.ts))
  {
    var month := FromUnix(m.ts).month;
    files[month := (if month in files then files[month] else "") + FormatLine(m) + "\n"]
  }

  class FileBackend {
    var files: Files

    constructor ()
      ensures ValidFiles(files) && files == map[]
    {
      files := map[];
    }

    method LoadMessages(query: Query, now: Time) returns (result: Result)
      requires ValidFiles(files) && query.Valid() && now.Valid()
      ensures result == Asked(files, query, now) && Obeys(result, query, now)
    {
      hide Sorted, Entries, Lines, Within, ScanLines, FirstN, LastN, ReadForward;
      hide InWindow, Walk, WindowOf, EffectiveLimit, Obeys;
      var limit := EffectiveLimit(query.limit);
      var w := WindowOf(query, now);
      var cursor := Start(w);
      var messages: seq<Message> := [];
      while InWindow(w, cursor)
        invariant cursor.Valid() && |messages| <= limit
        invariant Walk(files, w, limit, cursor, messages) == Walk(files, w, limit, Start(w), [])
        decreases if w.forward then w.before.AddMonths(1).month - cursor.month
          else cursor.month - w.after.month, cursor.day
      {
        var remaining := limit + 1 - |messages|;
        var msgs: seq<Message> := [];
        if cursor.month in files {
          var content := files[cursor.month];
          if w.forward {
            SameLines(content);
            var read, failed := ReadLogFile(content, w.after.Instant(), w.before.Instant(), remaining);
            if !failed { msgs := read; }
          } else {
            msgs := ReadLogFileBackward(content, w.after.Instant(), w.before.Instant(), remaining, CHUNK_SIZE);
          }
        }
        assert msgs == Page(files, w, remaining, cursor.month);
        ghost var found := messages;
        if w.forward {
          messages := messages + msgs;
        } else {
          messages := msgs + messages;
        }
        assert messages == Stitch(w, found, msgs);
        WalkStep(files, w, limit, cursor, found);
        if |messages| > limit { break; }
        WalkTerminates(w, cursor);
        cursor := cursor.AddMonths(Step(w));
      }
      if |messages| <= limit { WalkEnd(files, w, limit, cursor, messages); }
      result := Trim(w, messages, limit);
      AskedObeys(files, query, now);
    }

    /** A message without a time stamp is stamped with the current time. */
    method SaveMessage(msg: Message, now: int)
      requires Stampable(FromUnix(if msg.ts == 0 then now else msg.ts))
      modifies this
      ensures files == Saved(old(files), msg.(ts := if msg.ts == 0 then now else msg.ts))
    {
      var ts := if msg.ts == 0 then now else msg.ts;
      var t := FromUnix(ts);
      var log := if t.month in files then files[t.month] else "";
      var line := FormatBody(msg);
      files := files[t.month := log + (FormatStamp(t) + " 0 " + line + "\n")];
      assert log + (FormatStamp(t) + " 0 " + line + "\n") == log + FormatLine(msg.(ts := ts)) + "\n";
    }
  }
}
