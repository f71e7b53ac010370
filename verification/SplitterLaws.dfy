/** What splitting a message promises: both limits are kept, no text is lost or
    invented, and word wrapping uses as few pieces as any wrapping could. */
module SplitterLaws {
  import opened Text
  import opened Splitter

  // ---------------------------------------------------------------------
  // Limits
  // ---------------------------------------------------------------------

  ghost predicate Fit(pieces: seq<string>, max: nat) {
    forall p :: p in pieces ==> |p| <= max
  }

  lemma {:induction false} BreakFits(chunk: string, max: nat, room: nat)
    requires max >= 1
    ensures Fit(ForceBreak(chunk, max, room).0, max)
    decreases room
  {
    if room > 0 && |chunk| > max {
      BreakFits(chunk[max - 1..], max, room - 1);
    }
  }

  lemma ExtendLength(cur: string, chunk: string)
    ensures |Extend(cur, chunk)| == if cur == "" then |chunk| else |cur| + 1 + |chunk|
  {
  }

  lemma FitConcat(a: seq<string>, b: seq<string>, max: nat)
    requires Fit(a, max) && Fit(b, max)
    ensures Fit(a + b, max)
  {
  }

  lemma FlushFits(cur: string, max: nat)
    requires |cur| <= max
    ensures Fit(Flush(cur), max) && Fit([TrimSpace(cur)], max) && Fit([], max)
  {
    hide TrimSpace;
  }

  lemma WrapNothing(words: seq<string>, cur: string, max: nat, room: nat)
    requires max >= 1
    ensures room == 0 ==> Wrap(words, cur, max, room) == []
    ensures room > 0 && words == [] ==> Wrap(words, cur, max, room) == Flush(cur)
  {
  }

  lemma {:induction false} WrapFits(words: seq<string>, cur: string, max: nat, room: nat)
    requires max >= 1 && |cur| <= max
    ensures Fit(Wrap(words, cur, max, room), max)
    decreases |words|
  {
    hide TrimSpace, ForceBreak, Extend, Fit, Flush, Wrap;
    FlushFits(cur, max);
    if room == 0 || words == [] {
      WrapNothing(words, cur, max, room);
    } else {
      var chunk, later := words[0], words[1..];
      assert words == [chunk] + later;
      ExtendLength(cur, chunk);
      if |chunk| > max {
        var head := Flush(cur);
        var (pieces, rest) := ForceBreak(chunk, max, room - |head|);
        var left := room - |head| - |pieces|;
        WrapLong(chunk, later, cur, max, room);
        BreakFits(chunk, max, room - |head|);
        FitConcat(head, pieces, max);
        if left > 0 { WrapFits(later, rest, max, left); } else { WrapNothing(later, rest, max, left); }
        FitConcat(head + pieces, Wrap(later, rest, max, left), max);
      } else if |cur| + |chunk| + 1 > max {
        WrapShort(chunk, later, cur, max, room);
        WrapFits(later, chunk, max, room - 1);
        FitConcat([TrimSpace(cur)], Wrap(later, chunk, max, room - 1), max);
      } else {
        WrapShort(chunk, later, cur, max, room);
        WrapFits(later, Extend(cur, chunk), max, room);
      }
    }
  }

  lemma {:induction false} LinesFit(lines: seq<string>, max: nat, room: nat)
    requires max >= 1
    ensures Fit(SplitLines(lines, max, room), max)
  {
    hide TrimCR, Fields, Wrap;
    if lines != [] {
      WrapFits(Fields(TrimCR(lines[0]), ""), "", max, room);
      LinesFit(lines[1..], max, room - |SplitLine(lines[0], max, room)|);
    }
  }

  // ---------------------------------------------------------------------
  // Conservation
  // ---------------------------------------------------------------------

  /** The text without its white space. */
  function Strip(s: string): string {
    if s == "" then "" else InkOf(s[0]) + Strip(s[1..])
  }

  function InkOf(c: char): string {
    if c == ' ' || c == '\t' || c == '\n' || c == '\r' || c == '\U{000B}' || c == '\U{000C}' then "" else [c]
  }

  function Concat(pieces: seq<string>): string {
    if pieces == [] then "" else pieces[0] + Concat(pieces[1..])
  }

  function Ink(pieces: seq<string>): string { Strip(Concat(pieces)) }

  lemma {:induction false} StripConcat(a: string, b: string)
    ensures Strip(a + b) == Strip(a) + Strip(b)
  {
    hide InkOf;
    if a == "" {
      assert a + b == b;
    } else {
      StripConcat(a[1..], b);
      assert (a + b)[1..] == a[1..] + b && (a + b)[0] == a[0];
      assert Strip(a + b) == InkOf(a[0]) + Strip(a[1..] + b);
      assert InkOf(a[0]) + (Strip(a[1..]) + Strip(b)) == InkOf(a[0]) + Strip(a[1..]) + Strip(b);
    }
  }

  lemma {:induction false} ConcatConcat(a: seq<string>, b: seq<string>)
    ensures Concat(a + b) == Concat(a) + Concat(b)
  {
    if a == [] {
      assert a + b == b;
    } else {
      ConcatConcat(a[1..], b);
      assert (a + b)[1..] == a[1..] + b && (a + b)[0] == a[0];
      assert a[0] + (Concat(a[1..]) + Concat(b)) == a[0] + Concat(a[1..]) + Concat(b);
    }
  }

  lemma InkConcat(a: seq<string>, b: seq<string>)
    ensures Ink(a + b) == Ink(a) + Ink(b)
  {
    hide Strip, Concat;
    ConcatConcat(a, b);
    StripConcat(Concat(a), Concat(b));
  }

  lemma InkOne(s: string)
    ensures Ink([s]) == Strip(s) && Ink([]) == ""
  {
    hide Strip;
    assert [s][1..] == [];
    assert Concat([s]) == s + "" == s;
    assert Strip("") == "" by { StripEmpty(); }
  }

  lemma StripEmpty()
    ensures Strip("") == ""
  {
  }

  lemma {:induction false} StripTrimSpace(s: string)
    ensures Strip(TrimSpace(s)) == Strip(s)
  {
    if s != "" && IsWhite(s[0]) {
      StripTrimSpace(s[1..]);
    } else if s != "" && IsWhite(s[|s| - 1]) {
      var front, last := s[..|s| - 1], [s[|s| - 1]];
      StripTrimSpace(front);
      assert s == front + last && last[1..] == "";
      StripConcat(front, last);
    }
  }

  lemma {:induction false} StripTrimCR(s: string)
    ensures Strip(TrimCR(s)) == Strip(s)
  {
    if s != "" && s[|s| - 1] == '\r' {
      var front, last := s[..|s| - 1], [s[|s| - 1]];
      StripTrimCR(front);
      assert s == front + last && last[1..] == "";
      StripConcat(front, last);
    }
  }

  lemma {:induction false} InkOfFields(s: string, word: string)
    ensures Ink(Fields(s, word)) == Strip(word) + Strip(s)
    decreases |s|
  {
    hide Ink;
    InkOne(word);
    StripEmpty();
    if s != "" {
      if IsBlank(s[0]) {
        InkOfFields(s[1..], "");
        InkConcat(if word == "" then [] else [word], Fields(s[1..], ""));
      } else {
        InkOfFields(s[1..], word + [s[0]]);
        StripConcat(word, [s[0]]);
        assert [s[0]][1..] == "" && s == [s[0]] + s[1..];
        StripConcat([s[0]], s[1..]);
      }
    }
  }

  lemma {:induction false} InkOfLines(s: string)
    ensures Ink(Lines(s)) == Strip(s)
  {
    hide Ink;
    InkOne("");
    StripEmpty();
    if s != "" {
      InkOfLines(s[1..]);
      var rest := Lines(s[1..]);
      if s[0] == '\n' {
        InkConcat([""], rest);
      } else {
        var first := [s[0]] + rest[0];
        assert rest == [rest[0]] + rest[1..];
        InkConcat([first], rest[1..]);
        InkConcat([rest[0]], rest[1..]);
        InkOne(first);
        InkOne(rest[0]);
        StripConcat([s[0]], rest[0]);
        StripConcat([s[0]], s[1..]);
        assert s == [s[0]] + s[1..];
      }
    }
  }

  /** `got` is all of `want`, or a prefix of it when the room is used up. */
  ghost predicate Conserves(got: string, want: string, full: bool) {
    got <= want && (!full ==> got == want)
  }

  lemma {:induction false} InkOfBreak(chunk: string, max: nat, room: nat)
    requires max >= 1
    ensures var (pieces, rest) := ForceBreak(chunk, max, room);
      Ink(pieces) + Strip(rest) == Strip(chunk)
    decreases room
  {
    hide Ink, Strip;
    InkOne("");
    if room > 0 && |chunk| > max {
      var head, tail := chunk[..max - 1], chunk[max - 1..];
      var (pieces, rest) := ForceBreak(tail, max, room - 1);
      InkOfBreak(tail, max, room - 1);
      assert chunk == head + tail;
      StripConcat(head, tail);
      InkConcat([head], pieces);
      InkOne(head);
    }
  }

  lemma InkOfFlush(cur: string)
    ensures Ink(Flush(cur)) == Strip(cur)
  {
    hide TrimSpace;
    InkOne(TrimSpace(cur));
    StripTrimSpace(cur);
  }

  lemma StripBlank()
    ensures Strip(" ") == "" && Strip("") == ""
  {
  }

  lemma StripExtend(cur: string, chunk: string)
    ensures Strip(Extend(cur, chunk)) == Strip(cur) + Strip(chunk)
  {
    hide Strip;
    StripConcat(cur, " " + chunk);
    StripConcat(" ", chunk);
    StripBlank();
    assert cur + " " + chunk == cur + (" " + chunk);
  }

  /** A word broken by force, given that the words behind it are conserved. */
  lemma InkOfLongWord(cur: string, chunk: string, later: seq<string>, max: nat, room: nat)
    requires max >= 1 && room > 0
    requires var (pieces, rest) := ForceBreak(chunk, max, room - |Flush(cur)|);
      var tail := Wrap(later, rest, max, room - |Flush(cur)| - |pieces|);
      Conserves(Ink(tail), Strip(rest) + Ink(later), |tail| == room - |Flush(cur)| - |pieces|)
    ensures var (pieces, rest) := ForceBreak(chunk, max, room - |Flush(cur)|);
      var all := Flush(cur) + pieces + Wrap(later, rest, max, room - |Flush(cur)| - |pieces|);
      Conserves(Ink(all), Strip(cur) + (Strip(chunk) + Ink(later)), |all| == room)
  {
    hide Ink, Strip, TrimSpace, Flush, ForceBreak, Wrap;
    InkOfFlush(cur);
    var (pieces, rest) := ForceBreak(chunk, max, room - |Flush(cur)|);
    InkOfBreak(chunk, max, room - |Flush(cur)|);
    var tail := Wrap(later, rest, max, room - |Flush(cur)| - |pieces|);
    InkConcat(Flush(cur), pieces);
    InkConcat(Flush(cur) + pieces, tail);
    ThreeParts(Strip(cur), Ink(pieces), Strip(rest), Ink(later), Ink(tail));
  }

  lemma {:induction false} InkOfWrap(words: seq<string>, cur: string, max: nat, room: nat)
    requires max >= 1
    ensures var pieces := Wrap(words, cur, max, room);
      Conserves(Ink(pieces), Strip(cur) + Ink(words), |pieces| == room)
    decreases |words|
  {
    hide Ink, Strip, TrimSpace, Extend, Flush, ForceBreak;
    InkOne("");
    if room == 0 {
    } else if words == [] {
      InkOfFlush(cur);
    } else {
      var chunk, later := words[0], words[1..];
      assert words == [chunk] + later;
      InkConcat([chunk], later);
      InkOne(chunk);
      if |chunk| > max {
        var (pieces, rest) := ForceBreak(chunk, max, room - |Flush(cur)|);
        InkOfWrap(later, rest, max, room - |Flush(cur)| - |pieces|);
        InkOfLongWord(cur, chunk, later, max, room);
      } else if |cur| + |chunk| + 1 > max {
        InkOfWrap(later, chunk, max, room - 1);
        InkConcat([TrimSpace(cur)], Wrap(later, chunk, max, room - 1));
        InkOne(TrimSpace(cur));
        StripTrimSpace(cur);
      } else {
        InkOfWrap(later, Extend(cur, chunk), max, room);
        StripExtend(cur, chunk);
        assert Strip(cur) + (Strip(chunk) + Ink(later)) == Strip(cur) + Strip(chunk) + Ink(later);
      }
    }
  }

  lemma ThreeParts(a: string, b: string, c: string, d: string, tail: string)
    ensures a + ((b + c) + d) == (a + b) + (c + d)
    ensures tail <= c + d ==> (a + b) + tail <= a + ((b + c) + d)
    ensures tail == c + d ==> (a + b) + tail == a + ((b + c) + d)
  {
    assert a + ((b + c) + d) == (a + b) + (c + d);
  }

  lemma InkOfSplitLine(line: string, max: nat, room: nat)
    requires max >= 1
    ensures var pieces := SplitLine(line, max, room);
      Conserves(Ink(pieces), Strip(line), |pieces| == room)
  {
    hide Ink, Strip, Wrap, TrimCR, Fields;
    var s := TrimCR(line);
    StripTrimCR(line);
    InkOne(s);
    StripEmpty();
    InkOfFields(s, "");
    InkOfWrap(Fields(s, ""), "", max, room);
  }

  lemma {:induction false} InkOfSplit(lines: seq<string>, max: nat, room: nat)
    requires max >= 1
    ensures var pieces := SplitLines(lines, max, room);
      Conserves(Ink(pieces), Ink(lines), |pieces| == room)
  {
    hide Ink, Strip, SplitLine;
    InkOne("");
    if lines != [] {
      var first := SplitLine(lines[0], max, room);
      InkOfSplitLine(lines[0], max, room);
      InkOfSplit(lines[1..], max, room - |first|);
      InkConcat(first, SplitLines(lines[1..], max, room - |first|));
      assert lines == [lines[0]] + lines[1..];
      InkConcat([lines[0]], lines[1..]);
      InkOne(lines[0]);
    }
  }

  /** The central law of the splitter, for every message and every setting:
      pieces and their number respect both limits, and with white space removed
      the pieces spell the message, or a prefix of it when the bulk limit cut
      it short. */
  lemma SplitLaw(message: string, maxLength: int, maxBulk: int)
    ensures var pieces := Split(message, maxLength, maxBulk);
      && (maxLength >= 1 ==> Fit(pieces, maxLength) && |pieces| <= if maxBulk < 1 then 1 else maxBulk)
      && Ink(pieces) <= Strip(message)
      && (|pieces| < maxBulk || pieces == [] || maxLength <= 0 ==> Ink(pieces) == Strip(message))
      && (maxLength <= 0 ==> pieces == [message])
  {
    hide Ink, Strip, SplitLines, Lines, Fit;
    if maxLength <= 0 {
      InkOne(message);
    } else {
      LinesFit(Lines(message), maxLength, Cap(maxBulk));
      InkOfSplit(Lines(message), maxLength, Cap(maxBulk));
      InkOfLines(message);
    }
  }

  /** Short lines come out as they are, one piece each, as many as the bulk limit
      lets through. */
  lemma ShortLines(lines: seq<string>, maxLength: int, maxBulk: int)
    requires |lines| >= 1
    requires forall line :: line in lines ==>
      '\n' !in line && |line| < maxLength && (line != "" ==> line[|line| - 1] != '\r')
    ensures Split(Unlines(lines), maxLength, maxBulk) ==
      if |lines| <= maxBulk then lines else lines[..if maxBulk < 1 then 1 else maxBulk]
  {
    assert lines[0] in lines;
    LinesOfUnlines(lines);
    AllShort(lines, maxLength, Cap(maxBulk));
  }

  lemma {:induction false} AllShort(lines: seq<string>, max: nat, room: nat)
    requires max >= 1
    requires forall line :: line in lines ==> |line| < max && (line != "" ==> line[|line| - 1] != '\r')
    ensures SplitLines(lines, max, room) == if |lines| <= room then lines else lines[..room]
  {
    hide TrimCR, SplitLines;
    NoLines(lines, max, room);
    if lines != [] && room > 0 {
      var line, later := lines[0], lines[1..];
      assert line in lines && lines == [line] + later;
      assert TrimCR(line) == line;
      AllShort(later, max, room - 1);
      SplitFirst(line, later, max, room);
    }
  }

  lemma NoLines(lines: seq<string>, max: nat, room: nat)
    requires max >= 1
    ensures lines == [] || room == 0 ==> SplitLines(lines, max, room) == []
  {
    hide TrimCR, Fields, Wrap;
    if lines != [] && room == 0 { assert SplitLine(lines[0], max, 0) == []; }
  }

  /** In particular, a short message is one piece. */
  lemma ShortMessage(message: string, maxLength: int, maxBulk: int)
    requires '\n' !in message && |message| < maxLength && (message != "" ==> message[|message| - 1] != '\r')
    ensures Split(message, maxLength, maxBulk) == [message]
  {
    hide Split;
    ShortLines([message], maxLength, maxBulk);
  }

  // ---------------------------------------------------------------------
  // The words of a line
  // ---------------------------------------------------------------------

  predicate Blank(c: char) { c == ' ' || c == '\t' }

  /** A gap, a word, a gap, and so on, and a last gap. */
  function Weave(gaps: seq<string>, words: seq<string>): string
    requires |gaps| == |words| + 1
  {
    if words == [] then gaps[0] else gaps[0] + words[0] + Weave(gaps[1..], words[1..])
  }

  /** Nonempty words without blanks between gaps of blanks, of which only the first
      and the last may be empty. */
  ghost predicate AreRuns(gaps: seq<string>, words: seq<string>) {
    && |gaps| == |words| + 1
    && (forall w, c :: w in words && c in w ==> !Blank(c)) && (forall w :: w in words ==> w != "")
    && (forall g, c :: g in gaps && c in g ==> Blank(c))
    && forall k :: 0 < k < |words| ==> gaps[k] != ""
  }

  /** FieldsFunc finds the longest runs without blanks, all of them and in order. */
  lemma FieldsAreRuns(s: string) returns (gaps: seq<string>)
    ensures AreRuns(gaps, Fields(s, "")) && Weave(gaps, Fields(s, "")) == s
  {
    gaps := RunsAfter(s, "");
    assert "" + s == s;
  }

  lemma {:induction false} RunsAfter(s: string, word: string) returns (gaps: seq<string>)
    requires forall c :: c in word ==> !Blank(c)
    ensures |gaps| == |Fields(s, word)| + 1 && AreRuns(gaps, Fields(s, word))
    ensures Weave(gaps, Fields(s, word)) == word + s
    ensures word != "" ==> gaps[0] == ""
    decreases |s|
  {
    assert s != "" ==> (Blank(s[0]) <==> IsBlank(s[0]));
    hide Weave, AreRuns, Blank, IsBlank;
    if s == "" {
      gaps := if word == "" then [""] else ["", ""];
      LastRun(word);
    } else if IsBlank(s[0]) {
      var later := RunsAfter(s[1..], "");
      var words := Fields(s[1..], "");
      WiderGap(s[0], later, words);
      var wide := [[s[0]] + later[0]] + later[1..];
      assert "" + s[1..] == s[1..] && [s[0]] + s[1..] == s;
      if word == "" {
        gaps := wide;
        assert [] + words == words && word + s == s;
      } else {
        gaps := [""] + wide;
        OneMoreRun(word, wide, words);
      }
    } else {
      gaps := RunsAfter(s[1..], word + [s[0]]);
      assert word + [s[0]] + s[1..] == word + s;
    }
  }

  lemma LastRun(word: string)
    requires forall c :: c in word ==> !Blank(c)
    ensures AreRuns([""], []) && Weave([""], []) == ""
    ensures word != "" ==> AreRuns(["", ""], [word]) && Weave(["", ""], [word]) == word
  {
    assert Weave(["", ""][1..], [word][1..]) == "";
  }

  lemma WiderGap(c: char, gaps: seq<string>, words: seq<string>)
    requires Blank(c) && AreRuns(gaps, words)
    ensures var wide := [[c] + gaps[0]] + gaps[1..];
      AreRuns(wide, words) && wide[0] != "" && Weave(wide, words) == [c] + Weave(gaps, words)
  {
    hide Blank;
    var wide := [[c] + gaps[0]] + gaps[1..];
    assert wide[1..] == gaps[1..] && wide[0] == [c] + gaps[0];
    forall g, x | g in wide && x in g ensures Blank(x) { assert gaps[0] in gaps; }
  }

  lemma OneMoreRun(word: string, gaps: seq<string>, words: seq<string>)
    requires word != "" && (forall c :: c in word ==> !Blank(c)) && AreRuns(gaps, words) && gaps[0] != ""
    ensures AreRuns([""] + gaps, [word] + words)
    ensures Weave([""] + gaps, [word] + words) == word + Weave(gaps, words)
  {
    hide Blank;
    var more: seq<string> := [""] + gaps;
    assert more[1..] == gaps && ([word] + words)[1..] == words && "" + word == word;
  }

  /** TrimSpace takes off the white space at both ends, and no more. */
  lemma {:induction false} TrimSpaceIsExact(s: string) returns (i: nat, j: nat)
    ensures i <= j <= |s| && TrimSpace(s) == s[i..j]
    ensures forall k :: 0 <= k < |s| && !(i <= k < j) ==> InkOf(s[k]) == ""
    ensures i < j ==> InkOf(s[i]) != "" && InkOf(s[j - 1]) != ""
    decreases |s|
  {
    if s == "" {
      i, j := 0, 0;
    } else if IsWhite(s[0]) {
      i, j := TrimSpaceIsExact(s[1..]);
      i, j := i + 1, j + 1;
      assert forall k :: 0 < k < |s| ==> s[k] == s[1..][k - 1];
    } else if IsWhite(s[|s| - 1]) {
      i, j := TrimSpaceIsExact(s[..|s| - 1]);
    } else {
      i, j := 0, |s|;
    }
  }

  /** A word above the limit is cut into pieces one byte below it, for as long as the
      rest is above the limit. */
  lemma {:induction false} CutsAreEven(word: string, max: nat, room: nat)
    requires max >= 1
    ensures var cut := ForceBreak(word, max, room); IsEven(word, cut.0, cut.1, max, room)
    decreases room
  {
    hide ForceBreak, IsEven;
    if room > 0 && |word| > max {
      var head, tail := word[..max - 1], word[max - 1..];
      CutsAreEven(tail, max, room - 1);
      FirstCut(word, max, room);
      var cut := ForceBreak(tail, max, room - 1);
      OneMoreCut(head, tail, cut.0, cut.1, max, room);
      assert head + tail == word;
    } else {
      NoCut(word, max, room);
    }
  }

  /** All pieces but the rest are one byte below the limit; together they are the
      word; and the cutting has gone on as long as it must. */
  ghost predicate IsEven(word: string, pieces: seq<string>, rest: string, max: nat, room: nat) {
    && (forall p :: p in pieces ==> |p| == max - 1) && Concat(pieces) + rest == word
    && (|pieces| < room ==> |rest| <= max) && (pieces != [] ==> |rest| > 1)
  }

  lemma NoCut(word: string, max: nat, room: nat)
    requires max >= 1 && !(room > 0 && |word| > max)
    ensures ForceBreak(word, max, room) == ([], word) && IsEven(word, [], word, max, room)
  {
    assert "" + word == word;
  }

  lemma OneMoreCut(head: string, tail: string, pieces: seq<string>, rest: string, max: nat, room: nat)
    requires max >= 1 && room > 0 && |head| == max - 1 && |tail| > 1 && IsEven(tail, pieces, rest, max, room - 1)
    ensures IsEven(head + tail, [head] + pieces, rest, max, room)
  {
    hide Concat;
    ConcatFirst(head, pieces);
    Regroup("", head, Concat(pieces), rest);
    assert "" + head == head && (pieces == [] ==> rest == tail) by { ConcatNone(pieces); assert "" + rest == rest; }
  }

  lemma ConcatNone(pieces: seq<string>)
    ensures pieces == [] ==> Concat(pieces) == ""
  {
  }

  lemma FirstCut(word: string, max: nat, room: nat)
    requires max >= 1 && room > 0 && |word| > max
    ensures var (pieces, rest) := ForceBreak(word[max - 1..], max, room - 1);
      ForceBreak(word, max, room) == ([word[..max - 1]] + pieces, rest)
  {
  }

  lemma ConcatFirst(head: string, pieces: seq<string>)
    ensures Concat([head] + pieces) == head + Concat(pieces)
  {
    assert ([head] + pieces)[1..] == pieces;
  }

  // ---------------------------------------------------------------------
  // Greedy wrapping is optimal
  // ---------------------------------------------------------------------

  /** Words joined by single spaces. */
  function Joined(words: seq<string>): string {
    if words == [] then "" else if |words| == 1 then words[0] else words[0] + " " + Joined(words[1..])
  }

  function Flatten(groups: seq<seq<string>>): seq<string> {
    if groups == [] then [] else groups[0] + Flatten(groups[1..])
  }

  /** A wrapping of the words: consecutive nonempty groups that fit. */
  ghost predicate Packing(groups: seq<seq<string>>, words: seq<string>, max: nat) {
    && Flatten(groups) == words
    && forall g :: g in groups ==> g != [] && |Joined(g)| <= max
  }

  /** Nonempty words that fit on a line. */
  ghost predicate FitWords(words: seq<string>, max: nat) {
    forall w :: w in words ==> 1 <= |w| <= max
  }

  /** How many pieces greedy wrapping makes when the current line has length
      `c`, zero for an empty line. */
  function Greedy(words: seq<string>, c: nat, max: nat): nat {
    if words == [] then (if c == 0 then 0 else 1)
    else
      var w := |words[0]|;
      if c + w + 1 > max then 1 + Greedy(words[1..], w, max)
      else Greedy(words[1..], if c == 0 then w else c + 1 + w, max)
  }

  lemma {:induction false} WrapIsGreedy(words: seq<string>, cur: string, max: nat, room: nat)
    requires max >= 1 && FitWords(words, max)
    ensures |Wrap(words, cur, max, room)| ==
      if room < Greedy(words, |cur|, max) then room else Greedy(words, |cur|, max)
    decreases |words|
  {
    hide TrimSpace, ForceBreak, Extend;
    if words != [] { ExtendLength(cur, words[0]); }
    if words != [] && room > 0 {
      var chunk := words[0];
      assert chunk in words;
      if |cur| + |chunk| + 1 > max {
        WrapIsGreedy(words[1..], chunk, max, room - 1);
      } else {
        WrapIsGreedy(words[1..], Extend(cur, chunk), max, room);
      }
    }
  }

  /** A shorter current line never costs a piece, and no current line costs
      more than one piece over another. */
  lemma {:induction false} GreedyStaysAhead(words: seq<string>, c: nat, d: nat, max: nat)
    requires FitWords(words, max) && 1 <= c && 1 <= d
    ensures Greedy(words, c, max) <= 1 + Greedy(words, d, max)
    ensures c <= d ==> Greedy(words, c, max) <= Greedy(words, d, max)
    decreases |words|
  {
    if words != [] {
      assert words[0] in words;
      var w, rest := |words[0]|, words[1..];
      GreedyStaysAhead(rest, c + 1 + w, d + 1 + w, max);
      GreedyStaysAhead(rest, w, d + 1 + w, max);
      GreedyStaysAhead(rest, c + 1 + w, w, max);
    }
  }

  lemma FitParts(a: seq<string>, b: seq<string>, max: nat)
    ensures FitWords(a + b, max) <==> FitWords(a, max) && FitWords(b, max)
  {
    assert forall w :: w in a + b <==> w in a || w in b;
  }

  lemma GreedyFirst(word: string, rest: seq<string>, c: nat, max: nat)
    ensures Greedy([word] + rest, c, max) ==
      if c + |word| + 1 > max then 1 + Greedy(rest, |word|, max)
      else Greedy(rest, if c == 0 then |word| else c + 1 + |word|, max)
  {
    assert ([word] + rest)[1..] == rest;
  }

  lemma JoinedFirst(group: seq<string>)
    requires group != []
    ensures |Joined(group)| == |group[0]| + if |group| == 1 then 0 else 1 + |Joined(group[1..])|
  {
  }

  /** Greedy puts at least the words of a fitting group on the current line. */
  lemma {:induction false} GroupOnOneLine(group: seq<string>, rest: seq<string>, c: nat, max: nat)
    requires group != [] && 1 <= c && c + 1 + |Joined(group)| <= max
    ensures Greedy(group + rest, c, max) == Greedy(rest, c + 1 + |Joined(group)|, max)
    decreases |group|
  {
    hide Joined, Greedy;
    JoinedFirst(group);
    assert group + rest == [group[0]] + (group[1..] + rest);
    GreedyFirst(group[0], group[1..] + rest, c, max);
    if |group| == 1 {
      assert group[1..] + rest == rest;
    } else {
      GroupOnOneLine(group[1..], rest, c + 1 + |group[0]|, max);
    }
  }

  /** Once its first word stands on a line, so does the rest of the group. */
  lemma RestOfGroup(group: seq<string>, rest: seq<string>, max: nat)
    requires group != [] && 1 <= |group[0]| && |Joined(group)| <= max
    ensures Greedy(group[1..] + rest, |group[0]|, max) == Greedy(rest, |Joined(group)|, max)
  {
    hide Greedy, Joined;
    JoinedFirst(group);
    if |group| == 1 {
      assert group[1..] + rest == rest;
    } else {
      GroupOnOneLine(group[1..], rest, |group[0]|, max);
    }
  }

  lemma FirstGroup(groups: seq<seq<string>>, words: seq<string>, max: nat)
    requires groups != [] && Packing(groups, words, max) && FitWords(words, max)
    ensures var g, rest := groups[0], Flatten(groups[1..]);
      && g != [] && words == [g[0]] + (g[1..] + rest) && words[0] == g[0] && 1 <= |g[0]| <= |Joined(g)| <= max
      && Packing(groups[1..], rest, max) && FitWords(rest, max) && FitWords(g[1..] + rest, max)
  {
    PackingParts(groups, words, max);
    hide Packing, FitWords, Joined, Flatten;
    var g, rest := groups[0], Flatten(groups[1..]);
    HeadAndTail(g, rest);
    FirstIsFit(g[0], g[1..] + rest, max);
    FitParts(g[1..], rest, max);
    JoinedFirst(g);
  }

  lemma HeadAndTail(g: seq<string>, rest: seq<string>)
    requires g != []
    ensures g + rest == [g[0]] + (g[1..] + rest) && (g + rest)[0] == g[0]
  {
  }

  lemma PackingParts(groups: seq<seq<string>>, words: seq<string>, max: nat)
    requires groups != [] && Packing(groups, words, max)
    ensures var g, rest := groups[0], Flatten(groups[1..]);
      g != [] && |Joined(g)| <= max && words == g + rest && Packing(groups[1..], rest, max)
  {
    hide Joined;
    assert groups[0] in groups && forall h :: h in groups[1..] ==> h in groups;
  }

  /** From any line that holds something, greedy wrapping needs at most one piece
      more than any wrapping of the words that follow. */
  lemma {:induction false} GreedyFromLine(groups: seq<seq<string>>, words: seq<string>, c: nat, max: nat)
    requires Packing(groups, words, max) && FitWords(words, max) && 1 <= c
    ensures Greedy(words, c, max) <= 1 + |groups|
    decreases |groups|
  {
    if groups != [] {
      FirstGroup(groups, words, max);
      hide Packing, FitWords, Greedy, Joined, Flatten;
      var g, rest := groups[0], Flatten(groups[1..]);
      GreedyFirst(g[0], g[1..] + rest, c, max);
      RestOfGroup(g, rest, max);
      GreedyFromLine(groups[1..], rest, |Joined(g)|, max);
      GreedyStaysAhead(g[1..] + rest, c + 1 + |g[0]|, |g[0]|, max);
    }
  }

  /** No wrapping of the words uses fewer pieces, if the first word leaves room for
      the separator that the code always counts. */
  lemma GreedyIsLeast(groups: seq<seq<string>>, words: seq<string>, max: nat)
    requires Packing(groups, words, max) && FitWords(words, max)
    requires words == [] || |words[0]| < max
    ensures Greedy(words, 0, max) <= |groups|
  {
    if groups != [] {
      FirstGroup(groups, words, max);
      hide Packing, FitWords, Joined, Flatten;
      var g, rest := groups[0], Flatten(groups[1..]);
      GreedyFirst(g[0], g[1..] + rest, 0, max);
      hide Greedy;
      RestOfGroup(g, rest, max);
      GreedyFromLine(groups[1..], rest, |Joined(g)|, max);
    }
  }

  /** The groups that greedy wrapping itself forms, with `open` on the current
      line. */
  function GreedyGroups(words: seq<string>, open: seq<string>, max: nat): seq<seq<string>> {
    if words == [] then (if open == [] then [] else [open])
    else if |Joined(open)| + |words[0]| + 1 > max then [open] + GreedyGroups(words[1..], [words[0]], max)
    else GreedyGroups(words[1..], open + [words[0]], max)
  }

  lemma {:induction false} JoinedAppend(g: seq<string>, w: string)
    requires g != []
    ensures Joined(g + [w]) == Joined(g) + " " + w
  {
    if |g| == 1 {
      assert (g + [w])[1..] == [w];
    } else {
      assert (g + [w])[1..] == g[1..] + [w];
      JoinedAppend(g[1..], w);
      assert g[0] + " " + (Joined(g[1..]) + " " + w) == g[0] + " " + Joined(g[1..]) + " " + w;
    }
  }

  function Trimmed(groups: seq<seq<string>>): (r: seq<string>)
    ensures |r| == |groups|
  {
    seq(|groups|, i requires 0 <= i < |groups| => TrimSpace(Joined(groups[i])))
  }

  lemma CloseGroup(open: seq<string>, groups: seq<seq<string>>, words: seq<string>, max: nat)
    requires open != [] && |Joined(open)| <= max && Packing(groups, words, max)
    ensures Packing([open] + groups, open + words, max)
    ensures Trimmed([open] + groups) == [TrimSpace(Joined(open))] + Trimmed(groups)
  {
    hide Joined, TrimSpace;
    assert ([open] + groups)[1..] == groups;
  }

  lemma JoinedIsNonempty(g: seq<string>, max: nat)
    requires FitWords(g, max)
    ensures g != [] <==> |Joined(g)| >= 1
  {
    if g != [] { assert g[0] in g; }
  }

  lemma ExtendGroup(open: seq<string>, w: string, max: nat)
    requires FitWords(open, max)
    ensures Joined(open + [w]) == Extend(Joined(open), w) && Joined([w]) == w
  {
    hide Joined;
    JoinedOne(w);
    JoinedIsNonempty(open, max);
    if open != [] { JoinedAppend(open, w); } else { assert open + [w] == [w]; }
  }

  lemma JoinedOne(w: string)
    ensures Joined([w]) == w && Joined([]) == ""
  {
  }

  lemma NoGroups(max: nat)
    ensures Packing([], [], max) && Trimmed([]) == [] && Joined([]) == ""
  {
  }

  /** The groups are a wrapping, as many as greedy wrapping makes, and their lines
      are the pieces unless the bulk limit cuts: whole words, in order, none
      dropped. */
  lemma {:induction false} WrapIsPacking(words: seq<string>, open: seq<string>, max: nat, room: nat)
    requires max >= 1 && FitWords(open, max) && FitWords(words, max) && |Joined(open)| <= max
    requires open != [] || words == [] || |words[0]| < max
    ensures var groups := GreedyGroups(words, open, max);
      && Packing(groups, open + words, max) && |groups| == Greedy(words, |Joined(open)|, max)
      && (|Wrap(words, Joined(open), max, room)| < room ==> Wrap(words, Joined(open), max, room) == Trimmed(groups))
    decreases |words|
  {
    hide TrimSpace, ForceBreak, Joined, Packing, Trimmed, FitWords;
    NoGroups(max);
    JoinedIsNonempty(open, max);
    if words == [] {
      assert open + words == open && [open] + [] == [open];
      if open != [] { CloseGroup(open, [], [], max); }
    } else {
      var w, rest := words[0], words[1..];
      assert words == [w] + rest && open + words == open + [w] + rest;
      FirstIsFit(w, rest, max);
      ExtendGroup(open, w, max);
      ExtendLength(Joined(open), w);
      if |Joined(open)| + |w| + 1 > max {
        WrapIsPacking(rest, [w], max, if room == 0 then 0 else room - 1);
        CloseGroup(open, GreedyGroups(rest, [w], max), [w] + rest, max);
      } else {
        FitParts(open, [w], max);
        WrapIsPacking(rest, open + [w], max, room);
      }
    }
  }

  lemma FirstIsFit(w: string, rest: seq<string>, max: nat)
    requires FitWords([w] + rest, max)
    ensures FitWords([w], max) && FitWords(rest, max) && 1 <= |w| <= max
  {
    FitParts([w], rest, max);
    assert w in [w];
  }

  // ---------------------------------------------------------------------
  // When a line is wrapped optimally
  // ---------------------------------------------------------------------

  lemma {:induction false} FieldsAreNonempty(s: string, word: string)
    ensures forall w :: w in Fields(s, word) ==> w != ""
  {
    if s != "" {
      if IsBlank(s[0]) { FieldsAreNonempty(s[1..], ""); } else { FieldsAreNonempty(s[1..], word + [s[0]]); }
    }
  }

  /** Whatever wrapping exists, its words fit. */
  lemma {:induction false} PackedWordsFit(groups: seq<seq<string>>, words: seq<string>, max: nat)
    requires Packing(groups, words, max)
    ensures forall w :: w in words ==> |w| <= max
  {
    if groups != [] {
      var g, rest := groups[0], Flatten(groups[1..]);
      assert g in groups && forall h :: h in groups[1..] ==> h in groups;
      PackedWordsFit(groups[1..], rest, max);
      forall w | w in g ensures |w| <= max { WordInGroup(g, w); }
    }
  }

  lemma {:induction false} WordInGroup(g: seq<string>, w: string)
    requires w in g
    ensures |w| <= |Joined(g)|
  {
    if |g| > 1 && w != g[0] { WordInGroup(g[1..], w); }
  }

  ghost predicate Optimal(pieces: seq<string>, words: seq<string>, max: nat) {
    forall groups: seq<seq<string>> :: Packing(groups, words, max) ==> |pieces| <= |groups|
  }

  /** A line below the limit is one piece, which is least if it holds a word; a
      longer one is wrapped, which is least if its first word is below the limit. */
  predicate Thrifty(line: string, max: nat) {
    var s := TrimCR(line);
    var words := Fields(s, "");
    if |s| < max then words != [] else words == [] || |words[0]| < max
  }

  lemma LineWords(line: string, max: nat)
    ensures var words := Fields(TrimCR(line), "");
      FitWords(words, max) <==> forall w :: w in words ==> |w| <= max
  {
    FieldsAreNonempty(TrimCR(line), "");
  }

  /** Greedy wrapping is optimal, line by line, exactly when the line is thrifty,
      whatever its words are; all that is said of the bulk limit is that it did not
      cut the line short. (A line with a word above the limit has no wrapping, and
      its word is broken.) */
  lemma GreedyOptimal(line: string, max: nat, room: nat)
    requires max >= 1
    ensures var words, pieces := Fields(TrimCR(line), ""), SplitLine(line, max, room);
      && (Thrifty(line, max) ==> Optimal(pieces, words, max))
      && (|pieces| < room ==>
            (Optimal(pieces, words, max) <==> Thrifty(line, max) || exists w :: w in words && |w| > max))
  {
    hide Wrap, Fields, TrimCR, Packing;
    var s := TrimCR(line);
    var words, pieces := Fields(s, ""), SplitLine(line, max, room);
    if Thrifty(line, max) {
      forall groups: seq<seq<string>> | Packing(groups, words, max) ensures |pieces| <= |groups| {
        ThriftyIsLeast(line, max, room, groups);
      }
    } else if exists w :: w in words && |w| > max {
      forall groups: seq<seq<string>> ensures !Packing(groups, words, max) {
        if Packing(groups, words, max) { PackedWordsFit(groups, words, max); }
      }
    } else if |pieces| < room {
      LineWords(line, max);
      if |s| < max { NoGroups(max); } else { OneTooMany(words, max, room); }
    }
  }

  lemma ThriftyIsLeast(line: string, max: nat, room: nat, groups: seq<seq<string>>)
    requires max >= 1 && Thrifty(line, max) && Packing(groups, Fields(TrimCR(line), ""), max)
    ensures |SplitLine(line, max, room)| <= |groups|
  {
    hide Fields, TrimCR, Wrap, Greedy;
    var s := TrimCR(line);
    var words := Fields(s, "");
    if |s| >= max {
      PackedWordsFit(groups, words, max);
      LineWords(line, max);
      WrapIsGreedy(words, "", max, room);
      GreedyIsLeast(groups, words, max);
    }
  }

  /** A first word of exactly the limit costs one piece more than the least, an
      empty one at the front. */
  lemma OneTooMany(words: seq<string>, max: nat, room: nat)
    requires max >= 1 && FitWords(words, max) && words != [] && |words[0]| == max
    ensures var groups, pieces := GreedyGroups(words[1..], [words[0]], max), Wrap(words, "", max, room);
      && Packing(groups, words, max)
      && (|pieces| < room ==> |pieces| == |groups| + 1 && pieces == [""] + Trimmed(groups))
  {
    hide Packing, TrimSpace, Trimmed, FitWords, Joined;
    var w, rest := words[0], words[1..];
    assert words == [w] + rest;
    FirstIsFit(w, rest, max);
    JoinedOne(w);
    assert room > 0 ==> Wrap(words, "", max, room) == [TrimSpace("")] + Wrap(rest, w, max, room - 1);
    WrapIsPacking(rest, [w], max, if room == 0 then 0 else room - 1);
    TrimEmpty();
  }

  lemma TrimEmpty()
    ensures TrimSpace("") == ""
  {
  }

  /** A word without white space at its ends. */
  predicate Clean(w: string) {
    w != "" && !IsWhite(w[0]) && !IsWhite(w[|w| - 1])
  }

  /** Trimming takes nothing from a line of clean words. */
  lemma {:induction false} JoinedIsClean(g: seq<string>)
    requires g != [] && forall w :: w in g ==> Clean(w)
    ensures Clean(Joined(g)) && TrimSpace(Joined(g)) == Joined(g) && Joined(g)[0] == g[0][0]
  {
    assert Clean(g[0]);
    if |g| > 1 {
      JoinedIsClean(g[1..]);
      var tail := Joined(g[1..]);
      assert Joined(g) == g[0] + " " + tail;
      assert Joined(g)[|Joined(g)| - 1] == tail[|tail| - 1];
    }
  }

  lemma {:induction false} WordsOfGroups(groups: seq<seq<string>>)
    ensures forall g, w :: g in groups && w in g ==> w in Flatten(groups)
  {
    if groups != [] {
      WordsOfGroups(groups[1..]);
      assert forall g :: g in groups ==> g == groups[0] || g in groups[1..];
    }
  }

  lemma CleanGroups(groups: seq<seq<string>>, words: seq<string>, max: nat)
    requires Packing(groups, words, max) && forall w :: w in words ==> Clean(w)
    ensures forall i :: 0 <= i < |groups| ==> Trimmed(groups)[i] == Joined(groups[i])
  {
    hide Clean, Joined, TrimSpace, Flatten;
    WordsOfGroups(groups);
    forall i | 0 <= i < |groups| ensures Trimmed(groups)[i] == Joined(groups[i]) {
      assert groups[i] in groups;
      JoinedIsClean(groups[i]);
    }
  }

  /** A thrifty long line comes out as its words, wrapped: each piece is a group
      of words, trimmed of the white space that Fields does not split at, and is
      the group itself when the words have none at their ends. */
  lemma ThriftyIsPacking(line: string, max: nat, room: nat)
    requires max >= 1 && Thrifty(line, max) && |TrimCR(line)| >= max
    requires forall w :: w in Fields(TrimCR(line), "") ==> |w| <= max
    ensures var words, pieces := Fields(TrimCR(line), ""), SplitLine(line, max, room);
      var groups := GreedyGroups(words, [], max);
      |pieces| < room ==>
        && Packing(groups, words, max) && pieces == Trimmed(groups)
        && ((forall w :: w in words ==> Clean(w)) ==> forall i :: 0 <= i < |groups| ==> pieces[i] == Joined(groups[i]))
  {
    hide TrimCR, Fields, Wrap, Packing, Trimmed, Greedy, GreedyGroups, FitWords, Clean, Joined;
    var words := Fields(TrimCR(line), "");
    var groups := GreedyGroups(words, [], max);
    LineWords(line, max);
    NoGroups(max);
    FitNone(max);
    assert [] + words == words;
    WrapIsPacking(words, [], max, room);
    if |SplitLine(line, max, room)| < room && forall w :: w in words ==> Clean(w) {
      CleanGroups(groups, words, max);
    }
  }

  lemma FitNone(max: nat)
    ensures FitWords([], max)
  {
  }

  // ---------------------------------------------------------------------
  // A length limit of one
  // ---------------------------------------------------------------------

  function Empties(n: nat): seq<string> { if n == 0 then [] else [""] + Empties(n - 1) }

  /** With a length limit of 1, a word of two bytes or more fills what the bulk
      limit leaves; in front of everything else, with empty pieces only. */
  lemma {:induction false} LimitOneFillsTheRoom(words: seq<string>, cur: string, i: nat, room: nat)
    requires i < |words| && |words[i]| >= 2
    ensures |Wrap(words, cur, 1, room)| == room
    ensures i == 0 && cur == "" ==> Wrap(words, cur, 1, room) == Empties(room)
    decreases |words|, i
  {
    hide TrimSpace, Extend, ForceBreak;
    if room > 0 {
      var chunk := words[0];
      if i == 0 {
        BreakAtOne(chunk, room);
        BreakAtOne(chunk, if cur == "" then room else room - 1);
      } else if |chunk| > 1 {
        LimitOneFillsTheRoom(words, cur, 0, room);
      } else if |cur| + |chunk| + 1 > 1 {
        LimitOneFillsTheRoom(words[1..], chunk, i - 1, room - 1);
      } else {
        LimitOneFillsTheRoom(words[1..], Extend(cur, chunk), i - 1, room);
      }
    }
  }

  lemma {:induction false} BreakAtOne(chunk: string, room: nat)
    requires |chunk| >= 2
    ensures ForceBreak(chunk, 1, room) == (Empties(room), chunk) && |Empties(room)| == room
    decreases room
  {
    if room > 0 {
      BreakAtOne(chunk, room - 1);
      assert chunk[0..] == chunk && chunk[..0] == "";
    }
  }
}
