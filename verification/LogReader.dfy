/** The two readers of a monthly log file: `readLogFile` scans forward,
    `readLogFileBackward` reads fixed-size chunks from the end. Both are proved
    against the same specification, a filter over the parsed lines. */
module LogReader {
  import opened Calendar
  import opened Text
  import opened LogFormat

  const CHUNK_SIZE := 8192
  const TOKEN_LIMIT := 65536 // bufio.MaxScanTokenSize

  // ---------------------------------------------------------------------
  // The specification
  // ---------------------------------------------------------------------

  /** The messages of the lines that parse, in file order. */
  function Entries(lines: seq<string>): seq<Message> {
    if lines == [] then []
    else
      var m := ParseLine(lines[0]);
      (if m.Some? then [m.value] else []) + Entries(lines[1..])
  }

  predicate InRange(m: Message, after: int, before: int) {
    after < m.ts * SECOND < before
  }

  /** The messages strictly between two instants. */
  function Within(ms: seq<Message>, after: int, before: int): seq<Message> {
    if ms == [] then []
    else (if InRange(ms[0], after, before) then [ms[0]] else []) + Within(ms[1..], after, before)
  }

  function FirstN<T>(s: seq<T>, n: int): seq<T> {
    if |s| <= n then s else if n <= 0 then [] else s[..n]
  }

  function LastN<T>(s: seq<T>, n: int): seq<T> {
    if |s| <= n then s else if n <= 0 then [] else s[|s| - n..]
  }

  ghost predicate Sorted(ms: seq<Message>) {
    forall i, j :: 0 <= i < j < |ms| ==> ms[i].ts <= ms[j].ts
  }

  // ---------------------------------------------------------------------
  // Facts about the specification
  // ---------------------------------------------------------------------

  lemma {:induction false} EntriesOfConcat(a: seq<string>, b: seq<string>)
    ensures Entries(a + b) == Entries(a) + Entries(b)
  {
    hide ParseLine, Entries;
    if a == [] {
      assert a + b == b;
      EntriesNone();
    } else {
      EntriesOfConcat(a[1..], b);
      assert (a + b)[1..] == a[1..] + b && (a + b)[0] == a[0];
      EntriesFirst(a);
      EntriesFirst(a + b);
      var m := ParseLine(a[0]);
      var here := if m.Some? then [m.value] else [];
      assert here + (Entries(a[1..]) + Entries(b)) == here + Entries(a[1..]) + Entries(b);
    }
  }

  lemma EntriesNone()
    ensures Entries([]) == []
  {
  }

  lemma EntriesFirst(lines: seq<string>)
    requires lines != []
    ensures Entries(lines) == (match ParseLine(lines[0]) case None => [] case Some(m) => [m]) + Entries(lines[1..])
  {
    hide ParseLine;
  }

  lemma {:induction false} WithinConcat(a: seq<Message>, b: seq<Message>, after: int, before: int)
    ensures Within(a + b, after, before) == Within(a, after, before) + Within(b, after, before)
  {
    hide InRange, Within;
    if a == [] {
      assert a + b == b;
      WithinNone([], after, before);
    } else {
      WithinConcat(a[1..], b, after, before);
      assert (a + b)[1..] == a[1..] + b && (a + b)[0] == a[0];
      WithinFirst(a, after, before);
      WithinFirst(a + b, after, before);
      var here := if InRange(a[0], after, before) then [a[0]] else [];
      assert here + (Within(a[1..], after, before) + Within(b, after, before))
          == here + Within(a[1..], after, before) + Within(b, after, before);
    }
  }

  lemma WithinFirst(ms: seq<Message>, after: int, before: int)
    requires ms != []
    ensures Within(ms, after, before)
      == (if InRange(ms[0], after, before) then [ms[0]] else []) + Within(ms[1..], after, before)
  {
    hide InRange;
  }

  lemma {:induction false} WithinNone(ms: seq<Message>, after: int, before: int)
    requires forall m :: m in ms ==> !InRange(m, after, before)
    ensures Within(ms, after, before) == []
  {
    hide InRange;
    if ms != [] {
      assert ms[0] in ms;
      WithinNone(ms[1..], after, before);
    }
  }

  /** The lines before and after line `j`, and what it contributes. */
  lemma SplitAt(lines: seq<string>, j: nat, after: int, before: int)
    requires j < |lines|
    ensures var m := ParseLine(lines[j]);
      var here := if m.Some? && InRange(m.value, after, before) then [m.value] else [];
      && Within(Entries(lines[..j + 1]), after, before) == Within(Entries(lines[..j]), after, before) + here
      && Within(Entries(lines[j..]), after, before) == here + Within(Entries(lines[j + 1..]), after, before)
  {
    hide ParseLine;
    var one := [lines[j]];
    assert lines[..j + 1] == lines[..j] + one && lines[j..] == one + lines[j + 1..];
    assert one[1..] == [];
    EntriesOfConcat(lines[..j], one);
    EntriesOfConcat(one, lines[j + 1..]);
    WithinConcat(Entries(lines[..j]), Entries(one), after, before);
    WithinConcat(Entries(one), Entries(lines[j + 1..]), after, before);
  }

  /** In a chronological file, nothing before a message at or below `after` and
      nothing after a message at or above `before` is in range. */
  lemma ChronologicalStop(lines: seq<string>, j: nat, after: int, before: int)
    requires j < |lines| && Sorted(Entries(lines)) && ParseLine(lines[j]).Some?
    ensures ParseLine(lines[j]).value.ts * SECOND <= after ==> Within(Entries(lines[..j]), after, before) == []
    ensures before <= ParseLine(lines[j]).value.ts * SECOND ==> Within(Entries(lines[j + 1..]), after, before) == []
  {
    hide ParseLine, Sorted;
    var m := ParseLine(lines[j]).value;
    var front, back := Entries(lines[..j]), Entries(lines[j + 1..]);
    var one := [lines[j]];
    assert one[1..] == [] && Entries(one) == [m];
    EntriesOfConcat(lines[..j], one);
    EntriesOfConcat(lines[..j] + one, lines[j + 1..]);
    assert lines == lines[..j] + one + lines[j + 1..];
    var all := front + [m] + back;
    assert all == Entries(lines);
    if m.ts * SECOND <= after { NothingEarlier(front, m, back, after, before); }
    if before <= m.ts * SECOND { NothingLater(front, m, back, after, before); }
  }

  lemma NothingEarlier(front: seq<Message>, m: Message, back: seq<Message>, after: int, before: int)
    requires Sorted(front + [m] + back) && m.ts * SECOND <= after
    ensures Within(front, after, before) == []
  {
    var all := front + [m] + back;
    forall x | x in front ensures !InRange(x, after, before) {
      var i :| 0 <= i < |front| && front[i] == x;
      assert all[i] == x && all[|front|] == m;
    }
    WithinNone(front, after, before);
  }

  lemma NothingLater(front: seq<Message>, m: Message, back: seq<Message>, after: int, before: int)
    requires Sorted(front + [m] + back) && before <= m.ts * SECOND
    ensures Within(back, after, before) == []
  {
    var all := front + [m] + back;
    forall x | x in back ensures !InRange(x, after, before) {
      var i :| 0 <= i < |back| && back[i] == x;
      assert all[|front| + 1 + i] == x && all[|front|] == m;
    }
    WithinNone(back, after, before);
  }

  // ---------------------------------------------------------------------
  // Forward
  // ---------------------------------------------------------------------

  /** The tokens of a bufio.Scanner before it looks at them: an empty last line is
      none. */
  function RawLines(content: string): (r: seq<string>)
    ensures var lines := Lines(content); lines == if lines[|lines| - 1] == "" then r + [""] else r
  {
    var lines := Lines(content);
    if lines[|lines| - 1] == "" then lines[..|lines| - 1] else lines
  }

  /** bufio.ScanLines: a trailing carriage return is dropped from every line. */
  function ScanLines(content: string): (r: seq<string>)
    ensures |r| == |RawLines(content)|
  {
    var raw := RawLines(content);
    seq(|raw|, i requires 0 <= i < |raw| => DropCR(raw[i]))
  }

  /** Where a scanner gives up: the first line that fills its buffer, or the end. */
  function FirstLong(raw: seq<string>): (i: nat)
    ensures i <= |raw| && (forall j :: 0 <= j < i ==> |raw[j]| < TOKEN_LIMIT)
    ensures i < |raw| ==> |raw[i]| >= TOKEN_LIMIT
  {
    if raw == [] || |raw[0]| >= TOKEN_LIMIT then 0 else 1 + FirstLong(raw[1..])
  }

  /** The scan meets a line above the token limit before it has what it wants. */
  predicate ScanFails(content: string, after: int, before: int, limit: int) {
    var i := FirstLong(RawLines(content));
    var read := Entries(ScanLines(content)[..i]);
    && i < |RawLines(content)| && |Within(read, after, before)| < limit
    && forall m :: m in read ==> m.ts * SECOND < before
  }

  /** What the forward reader answers, or nothing for an error. */
  function ReadForward(content: string, after: int, before: int, limit: int): Option<seq<Message>> {
    if ScanFails(content, after, before, limit) then None
    else Some(FirstN(Within(Entries(ScanLines(content)), after, before), limit))
  }

  function DropCR(line: string): (r: string)
    ensures line == if line != "" && line[|line| - 1] == '\r' then r + "\r" else r
  {
    if line != "" && line[|line| - 1] == '\r' then line[..|line| - 1] else line
  }

  /** `messages` holds what the first `i` lines contribute. */
  ghost predicate Scanned(lines: seq<string>, i: nat, after: int, before: int, messages: seq<Message>) {
    i <= |lines| && messages == Within(Entries(lines[..i]), after, before)
  }

  lemma ScanLine(lines: seq<string>, i: nat, after: int, before: int, messages: seq<Message>)
    requires i < |lines| && Scanned(lines, i, after, before, messages) && Sorted(Entries(lines))
    ensures match ParseLine(lines[i])
      case None => Scanned(lines, i + 1, after, before, messages)
      case Some(m) =>
        Scanned(lines, i + 1, after, before, if InRange(m, after, before) then messages + [m] else messages)
        && (before <= m.ts * SECOND ==> messages == Within(Entries(lines), after, before))
  {
    hide ParseLine, Entries, Within, Sorted;
    SplitAt(lines, i, after, before);
    assert messages + [] == messages;
    match ParseLine(lines[i])
    case None =>
    case Some(m) =>
      ChronologicalStop(lines, i, after, before);
      ScanEnd(lines, i + 1, after, before, messages + if InRange(m, after, before) then [m] else []);
  }

  lemma ScanEnd(lines: seq<string>, i: nat, after: int, before: int, messages: seq<Message>)
    requires Scanned(lines, i, after, before, messages)
    ensures Within(Entries(lines), after, before) == messages + Within(Entries(lines[i..]), after, before)
  {
    assert lines == lines[..i] + lines[i..];
    EntriesOfConcat(lines[..i], lines[i..]);
    WithinConcat(Entries(lines[..i]), Entries(lines[i..]), after, before);
  }

  /** The messages of the first lines are messages of more lines. */
  lemma EntriesGrow(lines: seq<string>, i: nat, k: nat, after: int, before: int)
    requires i <= k <= |lines|
    ensures forall m :: m in Entries(lines[..i]) ==> m in Entries(lines[..k])
    ensures |Within(Entries(lines[..i]), after, before)| <= |Within(Entries(lines[..k]), after, before)|
  {
    hide ParseLine;
    assert lines[..k] == lines[..i] + lines[i..k];
    EntriesOfConcat(lines[..i], lines[i..k]);
    WithinConcat(Entries(lines[..i]), Entries(lines[i..k]), after, before);
  }

  lemma NextEntry(lines: seq<string>, i: nat)
    requires i < |lines|
    ensures Entries(lines[..i + 1]) ==
      Entries(lines[..i]) + match ParseLine(lines[i]) case None => [] case Some(m) => [m]
  {
    hide ParseLine;
    assert lines[..i + 1] == lines[..i] + [lines[i]] && [lines[i]][1..] == [];
    EntriesOfConcat(lines[..i], [lines[i]]);
  }

  /** Every message of the first `i` lines is before the end of the window. */
  ghost predicate AllBefore(lines: seq<string>, i: nat, before: int) {
    i <= |lines| && forall m :: m in Entries(lines[..i]) ==> m.ts * SECOND < before
  }

  lemma AllBeforeStep(lines: seq<string>, i: nat, before: int)
    requires i < |lines| && AllBefore(lines, i, before)
    ensures match ParseLine(lines[i])
      case None => AllBefore(lines, i + 1, before)
      case Some(m) => m.ts * SECOND < before ==> AllBefore(lines, i + 1, before)
  {
    hide ParseLine, Entries;
    NextEntry(lines, i);
  }

  lemma FailsHere(content: string, after: int, before: int, limit: int, i: nat, messages: seq<Message>)
    requires i < |RawLines(content)| && |RawLines(content)[i]| >= TOKEN_LIMIT
    requires forall j :: 0 <= j < i ==> |RawLines(content)[j]| < TOKEN_LIMIT
    requires Scanned(ScanLines(content), i, after, before, messages) && |messages| < limit
    requires AllBefore(ScanLines(content), i, before)
    ensures ScanFails(content, after, before, limit)
  {
    hide Entries, Within, RawLines, ScanLines;
  }

  /** A scan that has read enough by line `i` does not fail. */
  lemma EnoughByNow(content: string, after: int, before: int, limit: int, i: nat)
    requires i <= |RawLines(content)| && forall j :: 0 <= j < i ==> |RawLines(content)[j]| < TOKEN_LIMIT
    requires var read := Entries(ScanLines(content)[..i]);
      || i == |RawLines(content)| || |Within(read, after, before)| >= limit
      || exists m :: m in read && m.ts * SECOND >= before
    ensures !ScanFails(content, after, before, limit)
  {
    hide Entries, Within, RawLines, ScanLines;
    EntriesGrow(ScanLines(content), i, FirstLong(RawLines(content)), after, before);
  }

  lemma StopsHere(content: string, after: int, before: int, limit: int, i: nat, m: Message)
    requires i < |RawLines(content)| && forall j :: 0 <= j <= i ==> |RawLines(content)[j]| < TOKEN_LIMIT
    requires ParseLine(ScanLines(content)[i]) == Some(m) && m.ts * SECOND >= before
    ensures !ScanFails(content, after, before, limit)
  {
    hide ParseLine, Entries, Within, RawLines, ScanLines, ScanFails;
    NextEntry(ScanLines(content), i);
    assert m in Entries(ScanLines(content)[..i + 1]);
    EnoughByNow(content, after, before, limit, i + 1);
  }

  /** The scan stands before line `i`, with the limit not reached. */
  ghost predicate Reading(content: string, after: int, before: int, limit: int, i: nat, messages: seq<Message>) {
    && i <= |RawLines(content)| && (forall j :: 0 <= j < i ==> |RawLines(content)[j]| < TOKEN_LIMIT)
    && Scanned(ScanLines(content), i, after, before, messages) && |messages| < limit
    && AllBefore(ScanLines(content), i, before)
  }

  /** What one line does to the scan. */
  lemma ReadLine(content: string, after: int, before: int, limit: int, i: nat, messages: seq<Message>)
    requires Sorted(Entries(ScanLines(content)))
    requires Reading(content, after, before, limit, i, messages) && i < |RawLines(content)|
    ensures |RawLines(content)[i]| >= TOKEN_LIMIT ==> ReadForward(content, after, before, limit) == None
    ensures |RawLines(content)[i]| < TOKEN_LIMIT ==>
      match ParseLine(ScanLines(content)[i])
      case None => Reading(content, after, before, limit, i + 1, messages)
      case Some(m) =>
        if m.ts * SECOND >= before then ReadForward(content, after, before, limit) == Some(messages)
        else if m.ts * SECOND <= after then Reading(content, after, before, limit, i + 1, messages)
        else if |messages| + 1 >= limit then ReadForward(content, after, before, limit) == Some(messages + [m])
        else Reading(content, after, before, limit, i + 1, messages + [m])
  {
    hide ParseLine, Sorted, Entries, Within, Scanned, RawLines, ScanLines, ScanFails, AllBefore;
    var lines := ScanLines(content);
    if |RawLines(content)[i]| >= TOKEN_LIMIT {
      FailsHere(content, after, before, limit, i, messages);
    } else {
      ScanLine(lines, i, after, before, messages);
      AllBeforeStep(lines, i, before);
      match ParseLine(lines[i])
      case None =>
      case Some(m) =>
        if m.ts * SECOND >= before {
          StopsHere(content, after, before, limit, i, m);
        } else if m.ts * SECOND > after && |messages| + 1 >= limit {
          ScannedIs(lines, i + 1, after, before, messages + [m]);
          EnoughByNow(content, after, before, limit, i + 1);
          ScanEnd(lines, i + 1, after, before, messages + [m]);
          FirstNPrefix(messages + [m], Within(Entries(lines[i + 1..]), after, before), limit);
        }
    }
  }

  lemma FirstNPrefix<T>(a: seq<T>, b: seq<T>, n: int)
    requires |a| == n
    ensures FirstN(a + b, n) == a
  {
  }

  lemma ReadStart(content: string, after: int, before: int, limit: int)
    requires limit >= 1
    ensures Reading(content, after, before, limit, 0, [])
  {
    hide ParseLine, RawLines, ScanLines;
  }

  lemma ReadEnd(content: string, after: int, before: int, limit: int, messages: seq<Message>)
    requires Reading(content, after, before, limit, |RawLines(content)|, messages)
    ensures ReadForward(content, after, before, limit) == Some(messages)
  {
    hide ParseLine, Entries, Within, RawLines, ScanLines, ScanFails, AllBefore, Scanned;
    var lines := ScanLines(content);
    EnoughByNow(content, after, before, limit, |lines|);
    ScanEnd(lines, |lines|, after, before, messages);
    ScanNothing(lines, after, before);
    assert messages + [] == messages;
  }

  method ReadLogFile(content: string, after: int, before: int, limit: nat)
    returns (messages: seq<Message>, failed: bool)
    requires limit >= 1
    requires Sorted(Entries(ScanLines(content)))
    ensures ReadForward(content, after, before, limit) == if failed then None else Some(messages)
  {
    hide ParseLine, Sorted, Entries, RawLines, ScanFails, Reading, ReadForward;
    messages, failed := [], false;
    var raw := RawLines(content);
    ReadStart(content, after, before, limit);
    for i := 0 to |raw|
      invariant Reading(content, after, before, limit, i, messages) && !failed
    {
      ReadLine(content, after, before, limit, i, messages);
      if |raw[i]| >= TOKEN_LIMIT { return messages, true; }
      var line := DropCR(raw[i]);
      assert line == ScanLines(content)[i];
      var parsed := ParseLine(line);
      if parsed.None? { continue; }
      var msg := parsed.value;
      if msg.ts * SECOND <= after || msg.ts * SECOND >= before {
        if msg.ts * SECOND >= before { return; }
        continue;
      }
      messages := messages + [msg];
      if |messages| >= limit { return; }
    }
    ReadEnd(content, after, before, limit, messages);
  }

  lemma ScannedIs(lines: seq<string>, i: nat, after: int, before: int, messages: seq<Message>)
    requires Scanned(lines, i, after, before, messages)
    ensures i <= |lines| && Within(Entries(lines[..i]), after, before) == messages
  {
  }

  lemma ScanNothing(lines: seq<string>, after: int, before: int)
    ensures Within(Entries(lines[|lines|..]), after, before) == []
  {
  }

  // ---------------------------------------------------------------------
  // Backward
  // ---------------------------------------------------------------------

  function Reverse<T>(s: seq<T>): seq<T> {
    if s == [] then [] else Reverse(s[1..]) + [s[0]]
  }

  lemma {:induction false} ReverseAppend<T>(s: seq<T>, x: T)
    ensures Reverse(s + [x]) == [x] + Reverse(s)
  {
    if s != [] {
      ReverseAppend(s[1..], x);
      assert (s + [x])[1..] == s[1..] + [x];
    }
  }

  lemma {:induction false} ReverseTwice<T>(s: seq<T>)
    ensures |Reverse(s)| == |s| && Reverse(Reverse(s)) == s
  {
    if s != [] {
      ReverseTwice(s[1..]);
      ReverseAppend(Reverse(s[1..]), s[0]);
    }
  }

  /** One chunk: `remaining` starts the line that the previous chunk cut, and
      the chunk's own first line may be cut in turn. */
  lemma ChunkLines(front: string, chunk: string, remaining: string)
    requires '\n' !in remaining
    ensures var ls := Lines(chunk);
      var lines := ls[|ls| - 1 := ls[|ls| - 1] + remaining];
      && '\n' !in lines[0]
      && Lines(front + chunk + remaining) == Lines(front + lines[0]) + lines[1..]
      && (front == "" ==> Lines(front + chunk + remaining) == lines)
  {
    hide Lines;
    var ls := Lines(chunk);
    var lines := ls[|ls| - 1 := ls[|ls| - 1] + remaining];
    LinesHaveNoNewline(chunk);
    assert ls[0] in ls;
    OneLine(remaining);
    LinesOfConcat(chunk, remaining);
    assert Lines(chunk + remaining) == lines;
    assert front + chunk + remaining == front + (chunk + remaining);
    LinesOfConcat(front, chunk + remaining);
    OneLine(lines[0]);
    LinesOfConcat(front, lines[0]);
    if front == "" {
      assert front + (chunk + remaining) == chunk + remaining;
    }
  }

  /** `messages` holds, newest first, what the lines from `j` on contribute. */
  ghost predicate Visited(lines: seq<string>, j: nat, after: int, before: int, messages: seq<Message>) {
    j <= |lines| && messages == Reverse(Within(Entries(lines[j..]), after, before))
  }

  ghost predicate NothingBefore(lines: seq<string>, j: nat, after: int, before: int) {
    j <= |lines| && Within(Entries(lines[..j]), after, before) == []
  }

  lemma EmptyLine()
    ensures ParseLine("").None?
  {
  }

  lemma ReverseHit(m: Message, found: seq<Message>)
    ensures Reverse([m] + found) == Reverse(found) + [m]
  {
    assert ([m] + found)[1..] == found;
  }

  lemma VisitLine(lines: seq<string>, j: nat, after: int, before: int, messages: seq<Message>)
    requires j < |lines| && Visited(lines, j + 1, after, before, messages) && Sorted(Entries(lines))
    ensures lines[j] == "" ==> Visited(lines, j, after, before, messages)
    ensures match ParseLine(lines[j])
      case None => Visited(lines, j, after, before, messages)
      case Some(m) =>
        Visited(lines, j, after, before, if InRange(m, after, before) then messages + [m] else messages)
        && (m.ts * SECOND <= after ==> NothingBefore(lines, j, after, before))
  {
    hide ParseLine, Entries, Within, Sorted;
    SplitAt(lines, j, after, before);
    EmptyLine();
    var found := Within(Entries(lines[j + 1..]), after, before);
    assert [] + found == found;
    match ParseLine(lines[j])
    case None =>
    case Some(m) =>
      ReverseHit(m, found);
      ChronologicalStop(lines, j, after, before);
  }

  lemma VisitStart(content: string, after: int, before: int, limit: int)
    ensures Visited(Lines(content), |Lines(content)|, after, before, [])
    ensures content == "" ==> LastN(Within(Entries(Lines(content)), after, before), limit) == []
  {
    EmptyLine();
  }

  lemma VisitEnd(lines: seq<string>, j: nat, after: int, before: int, messages: seq<Message>, limit: int)
    requires Visited(lines, j, after, before, messages) && |messages| <= (if limit < 0 then 0 else limit)
    requires |messages| >= limit || j == 0 || NothingBefore(lines, j, after, before)
    ensures Reverse(messages) == LastN(Within(Entries(lines), after, before), limit)
  {
    hide ParseLine, Entries, Within, Sorted;
    assert lines == lines[..j] + lines[j..];
    EntriesOfConcat(lines[..j], lines[j..]);
    WithinConcat(Entries(lines[..j]), Entries(lines[j..]), after, before);
    ReverseTwice(Within(Entries(lines[j..]), after, before));
  }

  /** The inner loop: the complete lines of one chunk, newest first. They are
      all[base..j], and `all` is the whole file. */
  method ScanChunk(lines: seq<string>, after: int, before: int, limit: int, found: seq<Message>,
                   ghost all: seq<string>, ghost base: nat)
    returns (messages: seq<Message>, done: bool, ghost j: nat)
    requires base + |lines| <= |all| && all[base..base + |lines|] == lines && Sorted(Entries(all))
    requires Visited(all, base + |lines|, after, before, found) && |found| < limit
    ensures j <= |all| && Visited(all, j, after, before, messages) && |messages| <= limit
    ensures done ==> NothingBefore(all, j, after, before)
    ensures !done && |messages| < limit ==> j == base
  {
    hide ParseLine, Sorted, Visited, NothingBefore;
    messages, done, j := found, false, base + |lines|;
    var i := |lines| - 1;
    while i >= 0 && |messages| < limit
      invariant -1 <= i < |lines| && j == base + i + 1
      invariant Visited(all, j, after, before, messages)
      invariant |messages| <= limit && !done
    {
      var line := lines[i];
      assert line == all[j - 1];
      VisitLine(all, j - 1, after, before, messages);
      i, j := i - 1, j - 1;
      if line == "" { continue; }
      var parsed := ParseLine(line);
      if parsed.None? { continue; }
      var msg := parsed.value;
      if msg.ts * SECOND <= after || msg.ts * SECOND >= before {
        if msg.ts * SECOND <= after {
          done := true;
          break;
        }
        continue;
      }
      messages := messages + [msg];
    }
  }

  method ReadLogFileBackward(content: string, after: int, before: int, limit: int, chunkSize: nat)
    returns (r: seq<Message>)
    requires chunkSize >= 1
    requires Sorted(Entries(Lines(content)))
    ensures r == LastN(Within(Entries(Lines(content)), after, before), limit)
  {
    hide Sorted, ParseLine, Entries, Within, Lines, Reverse, Visited, NothingBefore, LastN;
    VisitStart(content, after, before, limit);
    if |content| == 0 { return []; }

    var messages: seq<Message> := [];
    var remaining := "";
    var offset := |content|;
    var done := false;
    // The lines all[j..] have been visited; the bytes of all[..j] are
    // content[..offset] followed by `remaining`.
    ghost var all := Lines(content);
    ghost var j := |all|;
    assert content[..offset] + remaining == content && all[..j] == all;

    while offset > 0 && |messages| < limit && !done
      invariant 0 <= offset <= |content| && 0 <= j <= |all|
      invariant '\n' !in remaining
      invariant !done && |messages| < limit ==>
        if offset > 0 then Lines(content[..offset] + remaining) == all[..j] else j == 0
      invariant Visited(all, j, after, before, messages)
      invariant |messages| <= if limit < 0 then 0 else limit
      invariant done ==> NothingBefore(all, j, after, before)
      decreases offset
    {
      var readSize := if chunkSize < offset then chunkSize else offset;
      offset := offset - readSize;
      var chunk := content[offset..offset + readSize];
      var lines := Lines(chunk);
      assert content[..offset + readSize] == content[..offset] + chunk;
      ChunkLines(content[..offset], chunk, remaining);
      lines := lines[|lines| - 1 := lines[|lines| - 1] + remaining];
      remaining := "";
      if offset > 0 {
        remaining := lines[0];
        lines := lines[1..];
      }
      ghost var base := j - |lines|;
      assert all[base..j] == lines;
      messages, done, j := ScanChunk(lines, after, before, limit, messages, all, base);
    }

    VisitEnd(all, j, after, before, messages, limit);
    r := Reverse(messages);
  }

  /** Both readers see the same lines, and so the same messages, if none ends in a
      carriage return, which only the forward reader strips. */
  lemma SameLines(content: string)
    requires forall line :: line in Lines(content) ==> DropCR(line) == line
    ensures ScanLines(content) == RawLines(content)
    ensures Entries(ScanLines(content)) == Entries(Lines(content))
  {
    hide DropCR, Entries, Lines;
    var lines := Lines(content);
    var last := |lines| - 1;
    NothingToDrop(content);
    if lines[last] == "" {
      assert lines == lines[..last] + [""];
      EntriesOfConcat(lines[..last], [""]);
      EntriesFirst([""]);
      EntriesNone();
      EmptyLine();
      assert [""][1..] == [] && Entries([""]) == [];
      assert RawLines(content) == lines[..last] && Entries(lines[..last]) + [] == Entries(lines[..last]);
    }
  }

  lemma NothingToDrop(content: string)
    requires forall line :: line in Lines(content) ==> DropCR(line) == line
    ensures ScanLines(content) == RawLines(content)
  {
    hide DropCR, Lines;
    var raw := RawLines(content);
    forall i | 0 <= i < |raw| ensures DropCR(raw[i]) == raw[i] {
      assert raw[i] == Lines(content)[i];
    }
  }

  /** When the limit does not cut, the two readers return the same exactly when the
      forward one does not run into a line above its token limit, and that it never
      does without such a line. */
  lemma ReadersAgree(content: string, after: int, before: int, limit: int)
    requires forall line :: line in Lines(content) ==> DropCR(line) == line
    requires |Within(Entries(Lines(content)), after, before)| <= limit
    ensures ReadForward(content, after, before, limit) ==
      Some(LastN(Within(Entries(Lines(content)), after, before), limit))
      <==> !ScanFails(content, after, before, limit)
    ensures (forall line :: line in Lines(content) ==> |line| < 65536) ==>
      !ScanFails(content, after, before, limit)
  {
    hide Entries, Within, Lines, ScanLines, DropCR;
    SameLines(content);
  }
}
