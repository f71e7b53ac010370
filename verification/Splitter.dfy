/** `SplitMessage`: one outgoing message becomes at most a bulk of pieces, each
    within the length limit. Text is bytes; white space is ASCII. */
module Splitter {
  import opened Text

  predicate IsBlank(c: char) { c == ' ' || c == '\t' }

  predicate IsWhite(c: char) {
    IsBlank(c) || c == '\n' || c == '\r' || c == '\U{000B}' || c == '\U{000C}'
  }

  // ---------------------------------------------------------------------
  // The library functions it calls
  // ---------------------------------------------------------------------

  /** strings.TrimRight(s, "\r"). */
  function TrimCR(s: string): (r: string)
    ensures r <= s && (r != "" ==> r[|r| - 1] != '\r')
    ensures forall i :: |r| <= i < |s| ==> s[i] == '\r'
  {
    if s != "" && s[|s| - 1] == '\r' then TrimCR(s[..|s| - 1]) else s
  }

  /** strings.TrimSpace. */
  function TrimSpace(s: string): (r: string)
    ensures |r| <= |s|
  {
    if s == "" then s
    else if IsWhite(s[0]) then TrimSpace(s[1..])
    else if IsWhite(s[|s| - 1]) then TrimSpace(s[..|s| - 1])
    else s
  }

  /** strings.FieldsFunc with blanks as separators; `word` is the field that is
      being collected. */
  function Fields(s: string, word: string): seq<string> {
    if s == "" then (if word == "" then [] else [word])
    else if IsBlank(s[0]) then (if word == "" then [] else [word]) + Fields(s[1..], "")
    else Fields(s[1..], word + [s[0]])
  }

  // ---------------------------------------------------------------------
  // The specification: the first `room` pieces
  // ---------------------------------------------------------------------

  /** Pieces of length max - 1 cut off a word that is longer than max, and what
      is left of the word. At max = 1 the pieces are empty and only the bound on
      their number ends the cutting. */
  function ForceBreak(chunk: string, max: nat, room: nat): (r: (seq<string>, string))
    requires max >= 1
    ensures |r.0| <= room
    ensures |r.0| < room ==> |r.1| <= max
    ensures room > 0 && |chunk| > max ==> |r.0| > 0
    decreases room
  {
    if room > 0 && |chunk| > max then
      var (pieces, rest) := ForceBreak(chunk[max - 1..], max, room - 1);
      ([chunk[..max - 1]] + pieces, rest)
    else ([], chunk)
  }

  function Extend(cur: string, chunk: string): string {
    if cur == "" then chunk else cur + " " + chunk
  }

  /** The current line as a last piece. */
  function Flush(cur: string): (r: seq<string>)
    ensures |r| == if cur == "" then 0 else 1
  {
    if cur == "" then [] else [TrimSpace(cur)]
  }

  function Wrap(words: seq<string>, cur: string, max: nat, room: nat): (r: seq<string>)
    requires max >= 1
    ensures |r| <= room
    decreases |words|
  {
    if room == 0 then []
    else if words == [] then Flush(cur)
    else
      var chunk := words[0];
      if |chunk| > max then
        var head := Flush(cur);
        var (pieces, rest) := ForceBreak(chunk, max, room - |head|);
        head + pieces + Wrap(words[1..], rest, max, room - |head| - |pieces|)
      else if |cur| + |chunk| + 1 > max then
        [TrimSpace(cur)] + Wrap(words[1..], chunk, max, room - 1)
      else Wrap(words[1..], Extend(cur, chunk), max, room)
  }

  function SplitLine(line: string, max: nat, room: nat): (r: seq<string>)
    requires max >= 1
    ensures |r| <= room
  {
    var s := TrimCR(line);
    if room == 0 then [] else if |s| < max then [s] else Wrap(Fields(s, ""), "", max, room)
  }

  function SplitLines(lines: seq<string>, max: nat, room: nat): (r: seq<string>)
    requires max >= 1
    ensures |r| <= room
  {
    if lines == [] then []
    else
      var pieces := SplitLine(lines[0], max, room);
      pieces + SplitLines(lines[1..], max, room - |pieces|)
  }

  /** Even a bulk size below one lets one piece through. */
  function Cap(maxBulk: int): nat { if maxBulk < 1 then 1 else maxBulk }

  function Split(message: string, maxLength: int, maxBulk: int): seq<string> {
    if maxLength <= 0 then [message] else SplitLines(Lines(message), maxLength, Cap(maxBulk))
  }

  class ConnectionProfile {
    var maxMessageLength: int
    var maxBulkMessageSize: int

    method SplitMessage(message: string) returns (messages: seq<string>)
      ensures messages == Split(message, maxMessageLength, maxBulkMessageSize)
    {
      hide Fields, TrimCR, TrimSpace, Lines, Wrap, SplitLines, SplitLine, ForceBreak, Rest, Broken;
      if maxMessageLength <= 0 { return [message]; }
      var max, cap := maxMessageLength, Cap(maxBulkMessageSize);
      ghost var all := Split(message, maxMessageLength, maxBulkMessageSize);

      messages := [];
      var lines := Lines(message);
      assert lines[0..] == lines;
      assert [] + all == all;
      for l := 0 to |lines|
        invariant |messages| < cap
        invariant all == messages + SplitLines(lines[l..], max, cap - |messages|)
      {
        var line := TrimCR(lines[l]);
        ghost var later := lines[l + 1..];
        assert lines[l..] == [lines[l]] + later;

        if |line| < maxMessageLength {
          ShortLine(messages, lines[l], later, max, cap);
          messages := messages + [line];
          if |messages| >= maxBulkMessageSize { return; }
          continue;
        }

        var chunks := Fields(line, "");
        AfterLine(messages, chunks, "", later, max, cap, lines[l]);
        var full;
        messages, full := WrapWords(messages, chunks, later);
        if full { return; }
      }
      assert lines[|lines|..] == [];
      LastLine(messages, max, cap);
    }

    /** The loop over the words of a long line; `full` says that the bulk limit is
        reached. */
    method WrapWords(found: seq<string>, chunks: seq<string>, ghost later: seq<string>)
      returns (messages: seq<string>, full: bool)
      requires maxMessageLength >= 1 && |found| < Cap(maxBulkMessageSize)
      ensures var max, cap := maxMessageLength, Cap(maxBulkMessageSize);
        var all := Rest(found, chunks, "", later, max, cap);
        if full then all == messages
        else |messages| < cap && all == messages + SplitLines(later, max, cap - |messages|)
    {
      hide TrimSpace, Wrap, SplitLines, ForceBreak, Rest, Broken;
      var max, cap := maxMessageLength, Cap(maxBulkMessageSize);
      ghost var all := Rest(found, chunks, "", later, max, cap);
      messages, full := found, false;
      var currentLine := "";
      assert chunks[0..] == chunks;
      for c := 0 to |chunks|
        invariant |messages| < cap && !full
        invariant all == Rest(messages, chunks[c..], currentLine, later, max, cap)
      {
        var chunk := chunks[c];
        ghost var words := chunks[c + 1..];
        assert chunks[c..] == [chunk] + words;
        if |chunk| > maxMessageLength {
          LongWord(messages, chunk, words, currentLine, later, max, cap);
          assert currentLine == "" ==> messages + Flush(currentLine) == messages;
          if currentLine != "" {
            messages := messages + [TrimSpace(currentLine)];
            if |messages| >= maxBulkMessageSize { return messages, true; }
          }
          messages, chunk, full := BreakChunk(messages, chunk, words, later);
          if full { return; }
          BreakEnd(messages, chunk, words, later, max, cap);
          currentLine := chunk;
          continue;
        }

        if |currentLine| + |chunk| + 1 > maxMessageLength {
          WordFlushes(messages, chunk, words, currentLine, later, max, cap);
          messages := messages + [TrimSpace(currentLine)];
          if |messages| >= maxBulkMessageSize { return messages, true; }
          currentLine := chunk;
        } else {
          WordFits(messages, chunk, words, currentLine, later, max, cap);
          currentLine := if currentLine == "" then chunk else currentLine + " " + chunk;
        }
      }
      assert chunks[|chunks|..] == [];
      LineEnd(messages, currentLine, later, max, cap);
      assert currentLine == "" ==> messages + Flush(currentLine) == messages;
      if currentLine != "" {
        messages := messages + [TrimSpace(currentLine)];
        full := |messages| >= maxBulkMessageSize;
      }
    }

    /** The loop that breaks a word by force. */
    method BreakChunk(found: seq<string>, word: string, ghost words: seq<string>, ghost later: seq<string>)
      returns (messages: seq<string>, chunk: string, full: bool)
      requires maxMessageLength >= 1 && |found| < Cap(maxBulkMessageSize)
      ensures var max, cap := maxMessageLength, Cap(maxBulkMessageSize);
        var all := Broken(found, word, words, later, max, cap);
        if full then all == messages
        else |messages| < cap && |chunk| <= max && all == Broken(messages, chunk, words, later, max, cap)
    {
      hide Broken, SplitLines, Rest;
      var max, cap := maxMessageLength, Cap(maxBulkMessageSize);
      messages, chunk, full := found, word, false;
      while |chunk| > maxMessageLength
        invariant |messages| < cap && !full
        invariant Broken(found, word, words, later, max, cap) == Broken(messages, chunk, words, later, max, cap)
        decreases cap - |messages|
      {
        BreakOnce(messages, chunk, words, later, max, cap);
        messages := messages + [chunk[..maxMessageLength - 1]];
        if |messages| >= maxBulkMessageSize { return messages, chunk, true; }
        chunk := chunk[maxMessageLength - 1..];
      }
    }
  }

  // ---------------------------------------------------------------------
  // The states of the loops, as the pieces still to come
  // ---------------------------------------------------------------------

  ghost function After(messages: seq<string>, pieces: seq<string>, later: seq<string>, max: nat, cap: nat): seq<string>
    requires max >= 1 && |messages| + |pieces| <= cap
  {
    messages + pieces + SplitLines(later, max, cap - |messages| - |pieces|)
  }

  ghost function Rest(messages: seq<string>, words: seq<string>, cur: string, later: seq<string>, max: nat,
      cap: nat): seq<string>
    requires max >= 1 && |messages| <= cap
  {
    After(messages, Wrap(words, cur, max, cap - |messages|), later, max, cap)
  }

  ghost function Broken(messages: seq<string>, chunk: string, words: seq<string>, later: seq<string>, max: nat,
      cap: nat): seq<string>
    requires max >= 1 && |messages| <= cap
  {
    var (pieces, rest) := ForceBreak(chunk, max, cap - |messages|);
    Rest(messages + pieces, words, rest, later, max, cap)
  }

  lemma LastLine(messages: seq<string>, max: nat, cap: nat)
    requires max >= 1 && |messages| <= cap
    ensures messages + SplitLines([], max, cap - |messages|) == messages
  {
  }

  lemma Full(messages: seq<string>, words: seq<string>, cur: string, later: seq<string>, max: nat, cap: nat)
    requires max >= 1 && |messages| == cap
    ensures SplitLines(later, max, 0) == []
    ensures Rest(messages, words, cur, later, max, cap) == messages
    ensures Broken(messages, cur, words, later, max, cap) == messages
  {
    hide TrimSpace;
    var (pieces, rest) := ForceBreak(cur, max, 0);
    assert messages + [] == messages;
  }

  lemma ShortLine(messages: seq<string>, line: string, later: seq<string>, max: nat, cap: nat)
    requires max >= 1 && |messages| < cap && |TrimCR(line)| < max
    ensures var messages' := messages + [TrimCR(line)];
      && messages + SplitLines([line] + later, max, cap - |messages|)
        == messages' + SplitLines(later, max, cap - |messages'|)
      && (|messages'| == cap ==> messages' + SplitLines(later, max, 0) == messages')
  {
    hide TrimCR, SplitLines;
    SplitFirst(line, later, max, cap - |messages|);
    var tail := SplitLines(later, max, cap - |messages| - 1);
    assert messages + ([TrimCR(line)] + tail) == messages + [TrimCR(line)] + tail;
  }

  lemma SplitFirst(line: string, later: seq<string>, max: nat, room: nat)
    requires max >= 1 && room > 0 && |TrimCR(line)| < max
    ensures SplitLines([line] + later, max, room) == [TrimCR(line)] + SplitLines(later, max, room - 1)
  {
    hide TrimCR;
    assert ([line] + later)[1..] == later;
  }

  lemma AfterLine(messages: seq<string>, words: seq<string>, cur: string, later: seq<string>, max: nat,
      cap: nat, line: string)
    requires max >= 1 && |messages| < cap && cur == "" && words == Fields(TrimCR(line), "") && |TrimCR(line)| >= max
    ensures Rest(messages, words, cur, later, max, cap) == messages + SplitLines([line] + later, max, cap - |messages|)
  {
    hide Fields, TrimCR, Wrap;
    assert ([line] + later)[1..] == later;
  }

  lemma LongWord(messages: seq<string>, chunk: string, words: seq<string>, cur: string, later: seq<string>,
      max: nat, cap: nat)
    requires max >= 1 && |messages| < cap && |chunk| > max
    ensures var messages' := messages + Flush(cur);
      && Rest(messages, [chunk] + words, cur, later, max, cap) == Broken(messages', chunk, words, later, max, cap)
      && (|messages'| == cap ==> Broken(messages', chunk, words, later, max, cap) == messages')
  {
    hide TrimSpace, SplitLines, Wrap, ForceBreak, Flush;
    WrapLong(chunk, words, cur, max, cap - |messages|);
    var head := Flush(cur);
    var (pieces, rest) := ForceBreak(chunk, max, cap - |messages| - |head|);
    var tail := Wrap(words, rest, max, cap - |messages| - |head| - |pieces|);
    assert messages + (head + pieces + tail) == messages + head + pieces + tail;
    if |messages + head| == cap {
      Full(messages + head, words, chunk, later, max, cap);
    }
  }

  lemma WrapLong(chunk: string, words: seq<string>, cur: string, max: nat, room: nat)
    requires max >= 1 && room > 0 && |chunk| > max
    ensures var head := Flush(cur);
      var (pieces, rest) := ForceBreak(chunk, max, room - |head|);
      Wrap([chunk] + words, cur, max, room) == head + pieces + Wrap(words, rest, max, room - |head| - |pieces|)
  {
    hide TrimSpace, ForceBreak, Flush;
    var all := [chunk] + words;
    assert all[0] == chunk && all[1..] == words;
  }

  lemma BreakOnce(messages: seq<string>, chunk: string, words: seq<string>, later: seq<string>, max: nat, cap: nat)
    requires max >= 1 && |messages| < cap && |chunk| > max
    ensures var messages' := messages + [chunk[..max - 1]];
      && Broken(messages, chunk, words, later, max, cap) == Broken(messages', chunk[max - 1..], words, later, max, cap)
      && (|messages'| == cap ==> Broken(messages', chunk[max - 1..], words, later, max, cap) == messages')
  {
    hide SplitLines, Rest;
    var (pieces, rest) := ForceBreak(chunk[max - 1..], max, cap - |messages| - 1);
    assert messages + ([chunk[..max - 1]] + pieces) == messages + [chunk[..max - 1]] + pieces;
    if |messages| + 1 == cap {
      Full(messages + [chunk[..max - 1]], words, chunk[max - 1..], later, max, cap);
    }
  }

  lemma BreakEnd(messages: seq<string>, chunk: string, words: seq<string>, later: seq<string>, max: nat, cap: nat)
    requires max >= 1 && |messages| < cap && |chunk| <= max
    ensures Broken(messages, chunk, words, later, max, cap) == Rest(messages, words, chunk, later, max, cap)
  {
    hide SplitLines, Rest;
    assert messages + [] == messages;
  }

  lemma WordFits(messages: seq<string>, chunk: string, words: seq<string>, cur: string, later: seq<string>,
      max: nat, cap: nat)
    requires max >= 1 && |messages| < cap && |cur| + |chunk| + 1 <= max
    ensures Rest(messages, [chunk] + words, cur, later, max, cap) ==
      Rest(messages, words, Extend(cur, chunk), later, max, cap)
  {
    hide TrimSpace, Extend, ForceBreak, Wrap, After;
    WrapShort(chunk, words, cur, max, cap - |messages|);
  }

  lemma WordFlushes(messages: seq<string>, chunk: string, words: seq<string>, cur: string, later: seq<string>,
      max: nat, cap: nat)
    requires max >= 1 && |messages| < cap && |chunk| <= max && |cur| + |chunk| + 1 > max
    ensures var messages' := messages + [TrimSpace(cur)];
      && Rest(messages, [chunk] + words, cur, later, max, cap) == Rest(messages', words, chunk, later, max, cap)
      && (|messages'| == cap ==> Rest(messages', words, chunk, later, max, cap) == messages')
  {
    hide TrimSpace, Extend, ForceBreak, Wrap, After;
    WrapShort(chunk, words, cur, max, cap - |messages|);
    FlushFirst(messages, TrimSpace(cur), Wrap(words, chunk, max, cap - |messages| - 1), later, max, cap);
    if |messages| + 1 == cap {
      Full(messages + [TrimSpace(cur)], words, chunk, later, max, cap);
    }
  }

  lemma FlushFirst(messages: seq<string>, piece: string, pieces: seq<string>, later: seq<string>, max: nat, cap: nat)
    requires max >= 1 && |messages| + 1 + |pieces| <= cap
    ensures After(messages, [piece] + pieces, later, max, cap) == After(messages + [piece], pieces, later, max, cap)
  {
    hide SplitLines;
    assert messages + ([piece] + pieces) == messages + [piece] + pieces;
  }

  lemma WrapShort(chunk: string, words: seq<string>, cur: string, max: nat, room: nat)
    requires max >= 1 && room > 0 && |chunk| <= max
    ensures Wrap([chunk] + words, cur, max, room) ==
      if |cur| + |chunk| + 1 > max then [TrimSpace(cur)] + Wrap(words, chunk, max, room - 1)
      else Wrap(words, Extend(cur, chunk), max, room)
  {
    hide TrimSpace, Extend, ForceBreak;
    var all := [chunk] + words;
    assert all[0] == chunk && all[1..] == words;
  }

  lemma LineEnd(messages: seq<string>, cur: string, later: seq<string>, max: nat, cap: nat)
    requires max >= 1 && |messages| < cap
    ensures var messages' := messages + Flush(cur);
      && Rest(messages, [], cur, later, max, cap) == messages' + SplitLines(later, max, cap - |messages'|)
      && (|messages'| == cap ==> messages' + SplitLines(later, max, 0) == messages')
  {
    hide TrimSpace;
    Full(messages + Flush(cur), [], "", later, max, |messages + Flush(cur)|);
  }
}
