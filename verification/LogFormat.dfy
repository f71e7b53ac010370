/** One message as one log line, and back: `formatMessageLine` with the time
    stamp that `SaveMessage` puts in front, and the pattern and
    `parseMessageLine` that the readers apply. */
module LogFormat {
  import opened Calendar
  import opened Text

  datatype Kind = Private | Notice | Action | Error | Reaction

  /** `ts` is the Unix time in seconds. */
  datatype Message = Message(from: string, text: string, kind: Kind, ts: int)

  // ---------------------------------------------------------------------
  // The body of a line
  // ---------------------------------------------------------------------

  function FormatBody(m: Message): string {
    match m.kind
    case Private => "<" + m.from + "> " + m.text
    case Notice => if m.from != "" then "-" + m.from + "- " + m.text else "-!- " + m.text
    case Action => "* " + m.from + " " + m.text
    case _ => m.text
  }

  function ParseBody(line: string, ts: int): Message {
    var close := IndexOf(line, "> ");
    if "<" <= line && close > 0 then
      Message(line[1..close], line[close + 2..], Private, ts)
    else if "-!- " <= line then
      Message("", line[4..], Notice, ts)
    else
      var dash := if "-" <= line && !("-!" <= line) then IndexOf(line[1..], "- ") else -1;
      if dash > 0 then
        Message(line[1..dash + 1], line[dash + 3..], Notice, ts)
      else
        var space := if "* " <= line then IndexOf(line[2..], " ") else -1;
        if space >= 0 then
          Message(line[2..space + 2], line[space + 3..], Action, ts)
        else
          Message("", line, Notice, ts)
  }

  /** The senders that survive the log format. */
  predicate Sendable(m: Message) {
    match m.kind
    case Private => !Contains(m.from, "> ")
    case Notice => m.from == "" || (m.from[0] != '!' && !Contains(m.from, "- "))
    case Action => ' ' !in m.from
    case _ => false
  }

  /** The first occurrence of a two-byte delimiter after a name. */
  lemma DelimiterAfter(name: string, c: char, text: string)
    requires c != ' '
    ensures !Contains(name, [c, ' ']) ==> IndexOf(name + [c, ' '] + text, [c, ' ']) == |name|
    ensures Contains(name, [c, ' ']) ==> 0 <= IndexOf(name + [c, ' '] + text, [c, ' ']) < |name|
  {
    var delim, line := [c, ' '], name + [c, ' '] + text;
    assert OccursAt(line, delim, |name|);
    forall i | 0 <= i < |name| ensures OccursAt(line, delim, i) <==> OccursAt(name, delim, i) {
      assert line[i..i + 2] == [line[i], line[i + 1]];
      if i + 2 <= |name| {
        assert name[i..i + 2] == [name[i], name[i + 1]];
      }
    }
    if Contains(name, delim) {
      var i :| 0 <= i <= |name| && OccursAt(name, delim, i);
      assert OccursAt(line, delim, i);
    }
  }

  /** A body is read back as it was written exactly when its sender does not
      imitate the delimiters. */
  lemma BodyRoundTrip(m: Message)
    ensures ParseBody(FormatBody(m), m.ts) == m <==> Sendable(m)
  {
    var line := FormatBody(m);
    match m.kind
    case Private =>
      PrivateRoundTrip(m);
    case Notice =>
      NoticeRoundTrip(m);
    case Action =>
      ActionRoundTrip(m);
    case _ =>
  }

  lemma PrivateRoundTrip(m: Message)
    requires m.kind == Private
    ensures ParseBody(FormatBody(m), m.ts) == m <==> Sendable(m)
  {
    var line := FormatBody(m);
    DelimiterAfter("<" + m.from, '>', m.text);
    assert line == ("<" + m.from) + "> " + m.text;
    ContainsAfter('<', m.from, "> ");
    var close := IndexOf(line, "> ");
    if !Contains(m.from, "> ") {
      assert line[1..close] == m.from && line[close + 2..] == m.text;
    }
  }

  lemma ContainsAfter(c: char, s: string, pat: string)
    requires |pat| > 0 && c != pat[0]
    ensures Contains([c] + s, pat) <==> Contains(s, pat)
  {
    var t := [c] + s;
    forall i | 0 <= i <= |s| ensures OccursAt(t, pat, i + 1) <==> OccursAt(s, pat, i) {
      if i + |pat| <= |s| {
        assert t[i + 1..i + 1 + |pat|] == s[i..i + |pat|];
      }
    }
    assert !OccursAt(t, pat, 0);
    if Contains(t, pat) {
      var i :| 0 <= i <= |t| && OccursAt(t, pat, i);
      assert OccursAt(s, pat, i - 1);
    }
  }

  lemma NoticeRoundTrip(m: Message)
    requires m.kind == Notice
    ensures ParseBody(FormatBody(m), m.ts) == m <==> Sendable(m)
  {
    var line := FormatBody(m);
    assert line[0] == '-';
    if m.from == "" {
      assert line[4..] == m.text;
    } else if m.from[0] == '!' {
      assert line[1] == '!';
    } else {
      assert line[1] == m.from[0];
      DelimiterAfter(m.from, '-', m.text);
      assert line[1..] == m.from + "- " + m.text;
      var dash := IndexOf(line[1..], "- ");
      if !Contains(m.from, "- ") {
        assert line[1..dash + 1] == m.from && line[dash + 3..] == m.text;
      }
    }
  }

  lemma SpaceAfter(name: string, text: string)
    ensures var space := IndexOf(name + " " + text, " ");
      0 <= space <= |name| && (space == |name| <==> ' ' !in name)
  {
    var rest := name + " " + text;
    assert OccursAt(rest, " ", |name|);
    forall i | 0 <= i < |name| ensures OccursAt(rest, " ", i) <==> name[i] == ' ' {
      assert rest[i..i + 1] == [name[i]];
    }
  }

  lemma ActionRoundTrip(m: Message)
    requires m.kind == Action
    ensures ParseBody(FormatBody(m), m.ts) == m <==> Sendable(m)
  {
    var line := FormatBody(m);
    var rest := line[2..];
    assert line[0] == '*' && line[1] == ' ';
    assert rest == m.from + " " + m.text;
    var space := IndexOf(rest, " ");
    SpaceAfter(m.from, m.text);
    assert line[2..space + 2] == rest[..space] && line[space + 3..] == rest[space + 1..];
  }

  /** What the parser makes of a body is a message that is written so, with a sender
      that imitates no delimiter, or a notice of the whole body. */
  lemma ParsedBody(line: string, ts: int)
    ensures var r := ParseBody(line, ts);
      r.ts == ts && ((Sendable(r) && FormatBody(r) == line) || r == Message("", line, Notice, ts))
  {
    var r := ParseBody(line, ts);
    var close := IndexOf(line, "> ");
    if "<" <= line && close > 0 {
      AngleMark(line, close);
    } else if "-!- " <= line {
      assert line == "-!- " + line[4..];
    } else {
      ParsedMark(line, ts);
    }
  }

  lemma ParsedMark(line: string, ts: int)
    requires !("<" <= line && IndexOf(line, "> ") > 0) && !("-!- " <= line)
    ensures var r := ParseBody(line, ts);
      r.ts == ts && ((Sendable(r) && FormatBody(r) == line) || r == Message("", line, Notice, ts))
  {
    var dash := if "-" <= line && !("-!" <= line) then IndexOf(line[1..], "- ") else -1;
    var space := if "* " <= line then IndexOf(line[2..], " ") else -1;
    if dash > 0 {
      DashMark(line, dash);
    } else if space >= 0 {
      SpaceMark(line, space);
    }
  }

  lemma AngleMark(line: string, close: nat)
    requires "<" <= line && close > 0 && close == IndexOf(line, "> ")
    ensures var from := line[1..close];
      line == "<" + from + "> " + line[close + 2..] && !Contains(from, "> ")
  {
    NotBefore(line, "> ", 1, close);
    hide Contains;
    assert line[close..close + 2] == "> " && line[..1] == "<";
    assert line == line[..1] + line[1..close] + line[close..close + 2] + line[close + 2..];
  }

  lemma DashMark(line: string, dash: nat)
    requires "-" <= line && !("-!" <= line) && dash > 0 && dash == IndexOf(line[1..], "- ")
    ensures var from := line[1..dash + 1];
      line == "-" + from + "- " + line[dash + 3..] && from[0] != '!' && !Contains(from, "- ")
  {
    var from := line[1..dash + 1];
    NotBefore(line[1..], "- ", 0, dash);
    assert from == line[1..][0..dash];
    hide Contains;
    assert line[1..][dash..dash + 2] == "- ";
    assert from[0] == line[1] && line[..2] == ['-', line[1]];
  }

  lemma SpaceMark(line: string, space: nat)
    requires "* " <= line && space == IndexOf(line[2..], " ")
    ensures var from := line[2..space + 2]; line == "* " + from + " " + line[space + 3..] && ' ' !in from
  {
    var from, rest := line[2..space + 2], line[2..];
    assert rest[space..space + 1] == " ";
    forall i | 0 <= i < |from| ensures from[i] != ' ' {
      assert !OccursAt(rest, " ", i) && rest[i..i + 1] == [from[i]];
    }
  }

  lemma NotBefore(s: string, pat: string, i: nat, j: nat)
    requires i <= j <= |s| && j == IndexOf(s, pat) && pat != ""
    ensures !Contains(s[i..j], pat)
  {
    var t := s[i..j];
    forall k | 0 <= k <= |t| ensures !OccursAt(t, pat, k) {
      if k + |pat| <= |t| {
        assert t[k..k + |pat|] == s[i + k..i + k + |pat|];
        assert !OccursAt(s, pat, i + k);
      }
    }
  }

  /** For every line that a log may hold, written by this program or not: the parser
      is the inverse of the format where the format has an inverse, and takes the
      line for a notice without a sender everywhere else. */
  lemma ParseBodyIsInverse(line: string, ts: int, m: Message)
    ensures ParseBody(line, ts) == m <==>
      || (m.ts == ts && Sendable(m) && FormatBody(m) == line)
      || (m == Message("", line, Notice, ts) && forall x: Message :: Sendable(x) ==> FormatBody(x) != line)
  {
    hide ParseBody, Sendable;
    ParsedBody(line, ts);
    var r := ParseBody(line, ts);
    if Sendable(m) && FormatBody(m) == line && m.ts == ts { BodyRoundTrip(m); }
    forall x: Message | Sendable(x) && FormatBody(x) == line ensures Sendable(r) && FormatBody(r) == line {
      SameBody(x, ts);
      BodyRoundTrip(x.(ts := ts));
    }
    WholeLineIsLonger(line, ts);
  }

  lemma SameBody(x: Message, ts: int)
    ensures FormatBody(x.(ts := ts)) == FormatBody(x) && Sendable(x.(ts := ts)) == Sendable(x)
  {
  }

  lemma WholeLineIsLonger(line: string, ts: int)
    ensures FormatBody(Message("", line, Notice, ts)) != line
  {
    assert |FormatBody(Message("", line, Notice, ts))| == |line| + 4;
  }

  // ---------------------------------------------------------------------
  // The time stamp
  // ---------------------------------------------------------------------

  function Digit(n: int): char
    requires 0 <= n < 10
  {
    ('0' as int + n) as char
  }

  function Value(c: char): int { c as int - '0' as int }

  function Pad2(n: int): string
    requires 0 <= n < 100
  {
    [Digit(n / 10), Digit(n % 10)]
  }

  function Value2(s: string): int
    requires |s| == 2
  {
    10 * Value(s[0]) + Value(s[1])
  }

  lemma Pad2Value(n: int)
    requires 0 <= n < 100
    ensures Value2(Pad2(n)) == n && forall c :: c in Pad2(n) ==> IsDigit(c)
  {
  }

  /** The years the four-digit stamp can show. */
  predicate Stampable(t: Time) { 0 <= Year(t.month) <= 9999 }

  /** The seven two-digit fields of a stamp. */
  function StampFields(t: Time): (n: seq<int>)
    requires t.Valid() && Stampable(t)
    ensures |n| == 7 && forall i :: 0 <= i < 7 ==> 0 <= n[i] < 100
  {
    var year, secs := Year(t.month), t.nanos / SECOND;
    [year / 100, year % 100, t.month % 12 + 1, t.day, secs / 3600, secs / 60 % 60, secs % 60]
  }

  function Layout(f: seq<string>): (s: string)
    requires |f| == 7 && forall i :: 0 <= i < 7 ==> |f[i]| == 2
    ensures |s| == 19
  {
    f[0] + f[1] + "-" + f[2] + "-" + f[3] + "T" + f[4] + ":" + f[5] + ":" + f[6]
  }

  /** The layout 2006-01-02T15:04:05. */
  function FormatStamp(t: Time): (s: string)
    requires t.Valid() && Stampable(t)
    ensures |s| == 19
  {
    var n := StampFields(t);
    Layout(seq(7, i requires 0 <= i < 7 => Pad2(n[i])))
  }

  predicate StampShape(s: string)
    requires |s| == 19
  {
    forall i :: 0 <= i < 19 ==>
      if i == 4 || i == 7 then s[i] == '-'
      else if i == 10 then s[i] == 'T'
      else if i == 13 || i == 16 then s[i] == ':'
      else IsDigit(s[i])
  }

  /** time.Parse with the same layout; only real dates and times of day pass. */
  function ParseStamp(s: string): Option<Time>
    requires |s| == 19 && StampShape(s)
  {
    FromFields([Value2(s[0..2]), Value2(s[2..4]), Value2(s[5..7]), Value2(s[8..10]),
                Value2(s[11..13]), Value2(s[14..16]), Value2(s[17..19])])
  }

  function FromFields(n: seq<int>): Option<Time>
    requires |n| == 7
  {
    var month := 12 * (100 * n[0] + n[1]) + n[2] - 1;
    if 1 <= n[2] <= 12 && 1 <= n[3] <= DaysIn(month) && n[4] < 24 && n[5] < 60 && n[6] < 60 then
      Some(Time(month, n[3], (3600 * n[4] + 60 * n[5] + n[6]) * SECOND))
    else None
  }

  lemma LayoutFields(f: seq<string>)
    requires |f| == 7 && forall i :: 0 <= i < 7 ==> |f[i]| == 2 && IsDigit(f[i][0]) && IsDigit(f[i][1])
    ensures var s := Layout(f);
      && StampShape(s) && s[0..2] == f[0] && s[2..4] == f[1] && s[5..7] == f[2] && s[8..10] == f[3]
      && s[11..13] == f[4] && s[14..16] == f[5] && s[17..19] == f[6]
  {
  }

  lemma FieldsRoundTrip(t: Time)
    requires t.Valid() && Stampable(t) && t.nanos % SECOND == 0
    ensures FromFields(StampFields(t)) == Some(t)
  {
    var year, secs := Year(t.month), t.nanos / SECOND;
    assert 100 * (year / 100) + year % 100 == year;
    assert 3600 * (secs / 3600) + 60 * (secs / 60 % 60) + secs % 60 == secs;
  }

  lemma StampRoundTrip(t: Time)
    requires t.Valid() && Stampable(t) && t.nanos % SECOND == 0
    ensures StampShape(FormatStamp(t)) && ParseStamp(FormatStamp(t)) == Some(t)
  {
    FieldsRoundTrip(t);
    PadsRoundTrip(StampFields(t));
  }

  /** A stamp shows the year, month, day, hour, minute and second in decimal. */
  lemma StampShows(t: Time)
    requires t.Valid() && Stampable(t)
    ensures var s, secs := FormatStamp(t), t.nanos / SECOND;
      && Number(s[0..4]) == t.month / 12 && Number(s[5..7]) == t.month % 12 + 1 && Number(s[8..10]) == t.day
      && 3600 * Number(s[11..13]) + 60 * Number(s[14..16]) + Number(s[17..19]) == secs
      && Number(s[14..16]) < 60 && Number(s[17..19]) < 60
  {
    var n, s := StampFields(t), FormatStamp(t);
    FieldsAre(t);
    hide StampFields, Number, Layout, Pad2, StampShape;
    PadsShow(n);
    assert s == Layout(seq(7, i requires 0 <= i < 7 => Pad2(n[i])));
    hide FormatStamp;
  }

  lemma FieldsAre(t: Time)
    requires t.Valid() && Stampable(t)
    ensures var n := StampFields(t);
      && 100 * n[0] + n[1] == t.month / 12 && n[2] == t.month % 12 + 1 && n[3] == t.day
      && 3600 * n[4] + 60 * n[5] + n[6] == t.nanos / SECOND && n[5] < 60 && n[6] < 60
  {
    var year, secs := t.month / 12, t.nanos / SECOND;
    assert 100 * (year / 100) + year % 100 == year;
    assert 3600 * (secs / 3600) + 60 * (secs / 60 % 60) + secs % 60 == secs;
  }

  /** Only what a stamp of some second looks like is read as a time, and as that second:
      real months, days, hours, minutes and seconds. */
  lemma ParseStampIsInverse(s: string, t: Time)
    requires |s| == 19 && StampShape(s)
    ensures ParseStamp(s) == Some(t) <==>
      t.Valid() && Stampable(t) && t.nanos % 1_000_000_000 == 0 && FormatStamp(t) == s
  {
    hide ParseStamp, StampShape, Layout, Pad2, Value2;
    if t.Valid() && Stampable(t) && t.nanos % SECOND == 0 { StampRoundTrip(t); }
    if ParseStamp(s) == Some(t) { ParsedStamp(s, t); }
  }

  lemma ParsedStamp(s: string, t: Time)
    requires |s| == 19 && StampShape(s) && ParseStamp(s) == Some(t)
    ensures t.Valid() && Stampable(t) && t.nanos % SECOND == 0 && FormatStamp(t) == s
  {
    var f := Slices(s);
    var n := seq(7, i requires 0 <= i < 7 => Value2(f[i]));
    assert n == [Value2(s[0..2]), Value2(s[2..4]), Value2(s[5..7]), Value2(s[8..10]),
                 Value2(s[11..13]), Value2(s[14..16]), Value2(s[17..19])];
    assert FromFields(n) == Some(t);
    hide ParseStamp, StampShape, Layout, Value2, FromFields;
    FieldsBack(n, t);
    hide StampFields;
    assert seq(7, i requires 0 <= i < 7 => Pad2(n[i])) == f;
  }

  /** The seven fields of a stamp. */
  lemma Slices(s: string) returns (f: seq<string>)
    requires |s| == 19 && StampShape(s)
    ensures f == [s[0..2], s[2..4], s[5..7], s[8..10], s[11..13], s[14..16], s[17..19]] && Layout(f) == s
    ensures forall i :: 0 <= i < 7 ==> 0 <= Value2(f[i]) < 100 && Pad2(Value2(f[i])) == f[i]
  {
    f := [s[0..2], s[2..4], s[5..7], s[8..10], s[11..13], s[14..16], s[17..19]];
    LayoutBack(s);
    forall i | 0 <= i < 7 ensures 0 <= Value2(f[i]) < 100 && Pad2(Value2(f[i])) == f[i] {
      assert IsDigit(f[i][0]) && IsDigit(f[i][1]);
      Pad2Back(f[i]);
    }
  }

  lemma LayoutBack(s: string)
    requires |s| == 19 && StampShape(s)
    ensures Layout([s[0..2], s[2..4], s[5..7], s[8..10], s[11..13], s[14..16], s[17..19]]) == s
  {
    assert s[4] == s[7] == '-' && s[10] == 'T' && s[13] == s[16] == ':';
  }

  lemma Pad2Back(s: string)
    requires |s| == 2 && IsDigit(s[0]) && IsDigit(s[1])
    ensures 0 <= Value2(s) < 100 && Pad2(Value2(s)) == s
  {
  }

  lemma FieldsBack(n: seq<int>, t: Time)
    requires |n| == 7 && (forall i :: 0 <= i < 7 ==> 0 <= n[i] < 100) && FromFields(n) == Some(t)
    ensures t.Valid() && Stampable(t) && t.nanos % SECOND == 0 && StampFields(t) == n
  {
    var secs := 3600 * n[4] + 60 * n[5] + n[6];
    assert t.nanos == secs * SECOND;
    assert secs / 3600 == n[4] && secs / 60 == 60 * n[4] + n[5];
    assert t.month / 12 == 100 * n[0] + n[1] && t.month % 12 == n[2] - 1;
  }

  /** In nineteen bytes, with dashes, a T and colons between the digits. */
  lemma StampLooks(t: Time)
    requires t.Valid() && Stampable(t)
    ensures var s := FormatStamp(t);
      && s[4] == s[7] == '-' && s[10] == 'T' && s[13] == s[16] == ':'
      && forall i :: 0 <= i < 19 && i !in {4, 7, 10, 13, 16} ==> '0' <= s[i] <= '9'
  {
    PadsShow(StampFields(t));
    assert StampShape(FormatStamp(t));
    hide FormatStamp;
  }

  lemma PadsShow(n: seq<int>)
    requires |n| == 7 && forall i :: 0 <= i < 7 ==> 0 <= n[i] < 100
    ensures var s := Layout(seq(7, i requires 0 <= i < 7 => Pad2(n[i])));
      && StampShape(s) && Number(s[0..4]) == 100 * n[0] + n[1] && Number(s[5..7]) == n[2] && Number(s[8..10]) == n[3]
      && Number(s[11..13]) == n[4] && Number(s[14..16]) == n[5] && Number(s[17..19]) == n[6]
  {
    var f := seq(7, i requires 0 <= i < 7 => Pad2(n[i]));
    forall i | 0 <= i < 7 ensures Number(f[i]) == n[i] && IsDigit(f[i][0]) && IsDigit(f[i][1]) {
      Pad2Number(n[i]);
    }
    LayoutFields(f);
    hide Number, Pad2, Layout, StampShape;
    var s := Layout(f);
    FourDigits(s[0..4]);
    assert s[0..4][0..2] == s[0..2] && s[0..4][2..4] == s[2..4];
  }

  lemma Pad2Number(n: int)
    requires 0 <= n < 100
    ensures Number(Pad2(n)) == n && IsDigit(Pad2(n)[0]) && IsDigit(Pad2(n)[1])
  {
    var s := Pad2(n);
    assert s[..1] == [s[0]] && s[..1][..0] == "";
    assert Number(s[..1]) == n / 10;
  }

  lemma FourDigits(s: string)
    requires |s| == 4
    ensures Number(s) == 100 * Number(s[0..2]) + Number(s[2..4])
  {
    assert s[..3][..2] == s[0..2] && s[2..4][..1] == [s[2]] && s[2..4][..1][..0] == "";
    assert Number([s[2]]) == s[2] as int - '0' as int;
  }

  lemma PadsRoundTrip(n: seq<int>)
    requires |n| == 7 && forall i :: 0 <= i < 7 ==> 0 <= n[i] < 100
    ensures var s := Layout(seq(7, i requires 0 <= i < 7 => Pad2(n[i])));
      StampShape(s) && ParseStamp(s) == FromFields(n)
  {
    var f := seq(7, i requires 0 <= i < 7 => Pad2(n[i]));
    forall i | 0 <= i < 7 ensures Value2(f[i]) == n[i] && IsDigit(f[i][0]) && IsDigit(f[i][1]) {
      Pad2Value(n[i]);
    }
    LayoutFields(f);
    assert n == [n[0], n[1], n[2], n[3], n[4], n[5], n[6]];
  }

  // ---------------------------------------------------------------------
  // A whole line
  // ---------------------------------------------------------------------

  predicate IsSpace(c: char) { c == ' ' || c == '\t' || c == '\n' || c == '\U{000C}' || c == '\r' }

  /** The end of the longest run of white space (or digits) that starts at `i`. */
  function SkipRun(s: string, i: nat, digits: bool): (j: nat)
    requires i <= |s|
    ensures i <= j <= |s|
    ensures forall k :: i <= k < j ==> if digits then IsDigit(s[k]) else IsSpace(s[k])
    ensures j < |s| ==> !(if digits then IsDigit(s[j]) else IsSpace(s[j]))
    decreases |s| - i
  {
    if i < |s| && (if digits then IsDigit(s[i]) else IsSpace(s[i])) then SkipRun(s, i + 1, digits) else i
  }

  /** The pattern of a log line: a stamp, white space, digits, white space, and
      the body, which must not hold a newline. */
  function ParseLine(line: string): (r: Option<Message>)
    ensures r.Some? ==> r.value.kind in {Private, Notice, Action}
  {
    if |line| < 19 || !StampShape(line[..19]) then None
    else
      var i := SkipRun(line, 19, false);
      var j := SkipRun(line, i, true);
      var k := SkipRun(line, j, false);
      if 19 == i || i == j || j == k || '\n' in line[k..] then None
      else
        var t := ParseStamp(line[..19]);
        if t.None? then None else Some(ParseBody(line[k..], t.value.Instant() / SECOND))
  }

  function FormatLine(m: Message): string
    requires Stampable(FromUnix(m.ts))
  {
    FormatStamp(FromUnix(m.ts)) + " 0 " + FormatBody(m)
  }

  /** A line of the log: the stamp, a zero, and one of four forms. */
  lemma LineLooksLike(m: Message)
    requires Stampable(FromUnix(m.ts))
    ensures var line := FormatLine(m);
      && line[..19] == FormatStamp(FromUnix(m.ts))
      && line[19..22] == " 0 " && line[22..] == match m.kind
           case Private => "<" + m.from + "> " + m.text
           case Notice => if m.from == "" then "-!- " + m.text else "-" + m.from + "- " + m.text
           case Action => "* " + m.from + " " + m.text
           case _ => m.text
  {
    BodyLooksLike(m);
    hide FormatStamp, FormatBody;
  }

  lemma BodyLooksLike(m: Message)
    ensures FormatBody(m) == match m.kind
      case Private => "<" + m.from + "> " + m.text
      case Notice => if m.from == "" then "-!- " + m.text else "-" + m.from + "- " + m.text
      case Action => "* " + m.from + " " + m.text
      case _ => m.text
  {
  }

  predicate Digits(s: string) { forall c :: c in s ==> '0' <= c <= '9' }

  predicate Blanks(s: string) { forall c :: c in s ==> c in {' ', '\t', '\n', '\U{000C}', '\r'} }

  /** Only lines of the pattern hold a message: digits, dashes, a T and colons in their
      places, white space, a number, white space, and a body without newline, which
      begins where the white space ends. */
  lemma ParsedLine(line: string) returns (i: nat, j: nat, k: nat)
    requires ParseLine(line).Some?
    ensures 19 < i < j < k <= |line| && '\n' !in line[k..]
    ensures Blanks(line[19..i]) && Digits(line[i..j]) && Blanks(line[j..k]) && !(k < |line| && Blanks([line[k]]))
    ensures line[4] == line[7] == '-' && line[10] == 'T' && line[13] == line[16] == ':'
    ensures Digits(line[0..4]) && Digits(line[5..7]) && Digits(line[8..10]) && Digits(line[11..13])
    ensures Digits(line[14..16]) && Digits(line[17..19])
    ensures ParseLine(line) == Some(ParseBody(line[k..], ParseLine(line).value.ts))
  {
    i := SkipRun(line, 19, false);
    j := SkipRun(line, i, true);
    k := SkipRun(line, j, false);
    RunIsBlank(line, 19, i);
    RunIsDigits(line, i, j);
    RunIsBlank(line, j, k);
    StampIsDigits(line);
    hide SkipRun, StampShape, ParseStamp;
    KeepsTime(line[k..], ParseStamp(line[..19]).value.Instant() / SECOND);
  }

  lemma RunIsBlank(line: string, i: nat, j: nat)
    requires i <= |line| && j == SkipRun(line, i, false)
    ensures Blanks(line[i..j]) && !(j < |line| && Blanks([line[j]]))
  {
    forall c | c in line[i..j] ensures c in {' ', '\t', '\n', '\U{000C}', '\r'} {
      var k :| i <= k < j && line[k] == c;
    }
    if j < |line| { assert line[j] in [line[j]] && !IsSpace(line[j]); }
  }

  lemma RunIsDigits(line: string, i: nat, j: nat)
    requires i <= |line| && j == SkipRun(line, i, true)
    ensures Digits(line[i..j])
  {
    forall c | c in line[i..j] ensures '0' <= c <= '9' {
      var k :| i <= k < j && line[k] == c;
    }
  }

  lemma StampIsDigits(line: string)
    requires |line| >= 19 && StampShape(line[..19])
    ensures line[4] == line[7] == '-' && line[10] == 'T' && line[13] == line[16] == ':'
    ensures Digits(line[0..4]) && Digits(line[5..7]) && Digits(line[8..10]) && Digits(line[11..13])
    ensures Digits(line[14..16]) && Digits(line[17..19])
  {
    assert forall i :: 0 <= i < 19 ==> line[i] == line[..19][i];
  }

  lemma KeepsTime(body: string, ts: int)
    ensures ParseBody(body, ts).ts == ts
  {
    hide IndexOf;
  }

  lemma ParseHeader(stamp: string, body: string)
    requires |stamp| == 19 && StampShape(stamp)
    requires body != "" && !IsSpace(body[0])
    ensures var t := ParseStamp(stamp);
      ParseLine(stamp + " 0 " + body) ==
      if '\n' in body || t.None? then None else Some(ParseBody(body, t.value.Instant() / SECOND))
  {
    var line := stamp + " 0 " + body;
    assert line[..19] == stamp && line[22..] == body;
    assert line[19] == ' ' && line[20] == '0' && line[21] == ' ' && line[22] == body[0];
    assert SkipRun(line, 19, false) == 20;
    assert SkipRun(line, 20, true) == 21;
    assert SkipRun(line, 21, false) == 22;
  }

  lemma StampedLine(ts: int, body: string)
    requires Stampable(FromUnix(ts)) && body != "" && !IsSpace(body[0])
    ensures ParseLine(FormatStamp(FromUnix(ts)) + " 0 " + body) ==
      if '\n' in body then None else Some(ParseBody(body, ts))
  {
    var t := FromUnix(ts);
    var stamp := FormatStamp(t);
    StampRoundTrip(t);
    ParseHeader(stamp, body);
    assert t.Instant() / SECOND == ts;
  }

  /** The central law of the log format, as an exact condition: a stored
      message is read back with the same sender, text, type and second if and
      only if it is one of the three chat types, holds no newline, and its
      sender does not imitate a delimiter. */
  lemma LineRoundTrip(m: Message)
    requires Stampable(FromUnix(m.ts))
    ensures ParseLine(FormatLine(m)) == Some(m) <==> Sendable(m) && '\n' !in FormatBody(m)
  {
    var r := ParseLine(FormatLine(m));
    if m.kind in {Private, Notice, Action} {
      StampedLine(m.ts, FormatBody(m));
      BodyRoundTrip(m);
    } else if r == Some(m) {
      assert false;
    }
  }
}
