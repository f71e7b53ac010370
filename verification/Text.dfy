/** Byte strings, as Go sees them: a `char` stands for one byte. */
module Text {

  datatype Option<+T> = None | Some(value: T)

  predicate IsDigit(c: char) { '0' <= c <= '9' }

  /** The number that digits stand for. */
  function Number(s: string): int {
    if s == "" then 0 else 10 * Number(s[..|s| - 1]) + (s[|s| - 1] as int - '0' as int)
  }

  predicate OccursAt(s: string, pat: string, i: int) {
    0 <= i <= |s| - |pat| && s[i..i + |pat|] == pat
  }

  predicate Contains(s: string, pat: string) {
    exists i :: 0 <= i <= |s| && OccursAt(s, pat, i)
  }

  /** strings.Index: the first occurrence of `pat`, or -1. */
  function IndexOf(s: string, pat: string): (r: int)
    ensures r == -1 || OccursAt(s, pat, r)
    ensures r == -1 ==> forall i :: 0 <= i <= |s| ==> !OccursAt(s, pat, i)
    ensures forall i :: 0 <= i < r ==> !OccursAt(s, pat, i)
  {
    IndexFrom(s, pat, 0)
  }

  function IndexFrom(s: string, pat: string, from: nat): (r: int)
    requires from <= |s|
    requires forall i :: 0 <= i < from ==> !OccursAt(s, pat, i)
    ensures r == -1 || (r >= from && OccursAt(s, pat, r))
    ensures r == -1 ==> forall i :: 0 <= i <= |s| ==> !OccursAt(s, pat, i)
    ensures forall i :: 0 <= i < r ==> !OccursAt(s, pat, i)
    decreases |s| - from
  {
    if OccursAt(s, pat, from) then from
    else if from == |s| then -1
    else IndexFrom(s, pat, from + 1)
  }

  // ---------------------------------------------------------------------
  // Lines
  // ---------------------------------------------------------------------

  /** strings.Split(s, "\n"). */
  function Lines(s: string): (r: seq<string>)
    ensures |r| >= 1
  {
    if s == "" then [""] else Push(s[0], Lines(s[1..]))
  }

  /** Puts one more byte in front of a text, given as lines. */
  function Push(c: char, lines: seq<string>): (r: seq<string>)
    requires |lines| >= 1
    ensures |r| >= 1
  {
    if c == '\n' then [""] + lines else [[c] + lines[0]] + lines[1..]
  }

  /** The lines of a text whose last line is continued by the first line of
      another text. */
  function Glue(la: seq<string>, lb: seq<string>): (r: seq<string>)
    requires |la| >= 1 && |lb| >= 1
    ensures |r| >= 1
  {
    la[..|la| - 1] + [la[|la| - 1] + lb[0]] + lb[1..]
  }

  lemma GluePush(c: char, la: seq<string>, lb: seq<string>)
    requires |la| >= 1 && |lb| >= 1
    ensures Glue(Push(c, la), lb) == Push(c, Glue(la, lb))
  {
    if c == '\n' {
      assert Glue([""] + la, lb) == [""] + Glue(la, lb);
    } else if |la| == 1 {
      GlueLast(c, la[0], lb);
      assert la == [la[0]] && la[1..] == [];
    } else {
      GlueFront([c] + la[0], la, lb);
    }
  }

  lemma GlueLast(c: char, line: string, lb: seq<string>)
    requires |lb| >= 1
    ensures Glue([[c] + line], lb) == Push(c, Glue([line], lb)) || c == '\n'
  {
    assert ([c] + line) + lb[0] == [c] + (line + lb[0]);
  }

  lemma GlueFront(first: string, la: seq<string>, lb: seq<string>)
    requires |la| >= 2 && |lb| >= 1
    ensures Glue([first] + la[1..], lb) == [first] + Glue(la, lb)[1..]
    ensures Glue(la, lb)[0] == la[0]
  {
    var front := [first] + la[1..];
    assert front[..|front| - 1] == [first] + la[..|la| - 1][1..];
  }

  /** Cutting a text in two cuts at most one line in two. */
  lemma {:induction false} LinesOfConcat(a: string, b: string)
    ensures Lines(a + b) == Glue(Lines(a), Lines(b))
  {
    if a == "" {
      assert a + b == b;
      var lb := Lines(b);
      assert "" + lb[0] == lb[0];
      assert Glue([""], lb) == [lb[0]] + lb[1..] == lb;
    } else {
      assert a + b == [a[0]] + (a[1..] + b);
      LinesOfConcat(a[1..], b);
      GluePush(a[0], Lines(a[1..]), Lines(b));
    }
  }

  lemma {:induction false} OneLine(s: string)
    requires '\n' !in s
    ensures Lines(s) == [s]
  {
    if s != "" {
      OneLine(s[1..]);
      assert [s[0]] + s[1..] == s;
    }
  }

  /** Lines put together again. */
  function Unlines(lines: seq<string>): string
    requires |lines| >= 1
  {
    if |lines| == 1 then lines[0] else lines[0] + "\n" + Unlines(lines[1..])
  }

  lemma UnlinesMore(first: string, rest: seq<string>)
    requires |rest| >= 1
    ensures Unlines([first] + rest) == first + "\n" + Unlines(rest)
  {
    assert ([first] + rest)[1..] == rest;
  }

  lemma UnlinesOne(line: string)
    ensures Unlines([line]) == line
  {
  }

  lemma Regroup(a: string, b: string, c: string, d: string)
    ensures a + b + c + d == a + (b + c + d)
  {
  }

  lemma UnlinesPush(c: char, lines: seq<string>)
    requires |lines| >= 1
    ensures Unlines(Push(c, lines)) == [c] + Unlines(lines)
  {
    hide Unlines;
    var first, rest := lines[0], lines[1..];
    assert lines == [first] + rest;
    if c == '\n' {
      UnlinesMore("", lines);
      assert Push(c, lines) == [""] + lines;
      assert "" + "\n" == "\n" == [c];
    } else if rest == [] {
      assert lines == [first] && [[c] + first] + rest == [[c] + first];
      UnlinesOne(first);
      UnlinesOne([c] + first);
    } else {
      UnlinesMore(first, rest);
      UnlinesMore([c] + first, rest);
      assert Push(c, lines) == [[c] + first] + rest;
      Regroup([c], first, "\n", Unlines(rest));
    }
  }

  /** Lines only takes the newlines out. */
  lemma {:induction false} LinesAreAll(s: string)
    ensures Unlines(Lines(s)) == s
  {
    hide Unlines, Push;
    if s == "" {
      UnlinesOne("");
    } else {
      LinesAreAll(s[1..]);
      UnlinesPush(s[0], Lines(s[1..]));
    }
  }

  /** And the lines of a text put together so are these lines. */
  lemma {:induction false} LinesOfUnlines(lines: seq<string>)
    requires |lines| >= 1 && forall line :: line in lines ==> '\n' !in line
    ensures Lines(Unlines(lines)) == lines
  {
    hide Unlines, Lines;
    var first, rest := lines[0], lines[1..];
    assert lines == [first] + rest;
    OneLine(first);
    if rest == [] {
      assert lines == [first];
      UnlinesOne(first);
    } else {
      LinesOfUnlines(rest);
      UnlinesMore(first, rest);
      NewlineFirst(Unlines(rest));
      LinesOfConcat(first, "\n" + Unlines(rest));
      assert first + "\n" + Unlines(rest) == first + ("\n" + Unlines(rest));
      assert first + "" == first && Glue([first], [""] + rest) == [first] + rest;
    }
  }

  lemma NewlineFirst(s: string)
    ensures Lines("\n" + s) == [""] + Lines(s)
  {
    assert ("\n" + s)[1..] == s;
  }

  lemma {:induction false} LinesHaveNoNewline(s: string)
    ensures forall line :: line in Lines(s) ==> '\n' !in line
  {
    if s != "" {
      LinesHaveNoNewline(s[1..]);
    }
  }
}
