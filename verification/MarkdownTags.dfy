/** The HTML that each kind of markup makes, in the middle of a calm message: one
    without any other markup. */
module MarkdownTags {
  import opened Text
  import opened Markdown
  import opened MarkdownLaws
  import opened MarkdownText

  /** Characters that no rule looks for. */
  predicate Calm(c: char) {
    !MarkChar(c) && c != '\U{0003}' && c != '[' && c != ']' && c != ':' && c != '#' && c != '\\'
  }

  ghost predicate AllCalm(s: string) { forall c :: c in s ==> Calm(c) }

  // ---------------------------------------------------------------------
  // Where rules match
  // ---------------------------------------------------------------------

  /** What stands at the place of a match. */
  ghost predicate Needs(rule: Rule, s: string, i: nat)
    requires i < |s|
  {
    match rule
    case Code => s[i] == '`'
    case EmStrong => i + 2 < |s| && s[i] == s[i + 1] == s[i + 2] == '*'
    case Strong => i + 1 < |s| && s[i] == s[i + 1] == '*'
    case Em => s[i] == '*'
    case IrcColor => s[i] == '\U{0003}'
    case IrcText => MarkChar(s[i]) && s[i] != '*' && s[i] != '`'
    case Link => s[i] == '['
    case Url => HasUrlScheme(s[i..])
    case ChannelName => s[i] == '#' || (i + 1 < |s| && s[i + 1] == '#')
  }

  lemma MatchNeeds(rule: Rule, s: string, i: nat)
    requires i <= |s| && MatchEnd(rule, s, i) > i
    ensures i < |s| && Needs(rule, s, i)
  {
    hide RunEnd, TwoDigits, StartsAt;
    match rule
    case Code => Front(s, i, "`");
    case EmStrong => Front(s, i, "***");
    case Strong => Front(s, i, "**");
    case Em => Front(s, i, "*");
    case IrcColor => Front(s, i, [COLOR]);
    case IrcText =>
    case Link => Front(s, i, "[");
    case Url => Front(s, i, "https:"); Front(s, i, "http:"); Front(s, i, "mailto:");
    case ChannelName => Front(s, i, "#"); Front(s, i + 1, "#");
  }

  lemma Front(s: string, i: nat, pat: string)
    requires pat != ""
    ensures StartsAt(s, i, pat) ==> i < |s| && pat <= s[i..] && forall k :: 0 <= k < |pat| ==> s[i + k] == pat[k]
    ensures i <= |s| && pat <= s[i..] ==> StartsAt(s, i, pat)
  {
    if StartsAt(s, i, pat) {
      assert s[i..i + |pat|] == s[i..][..|pat|];
      forall k | 0 <= k < |pat| ensures s[i + k] == pat[k] { assert s[i..i + |pat|][k] == s[i + k]; }
    }
    if i <= |s| && pat <= s[i..] { assert s[i..i + |pat|] == s[i..][..|pat|]; }
  }

  lemma Declines(rule: Rule, s: string)
    requires forall i :: 0 <= i < |s| ==> !Needs(rule, s, i)
    ensures Apply(rule, s) == Declined(s)
  {
    hide MatchEnd, Needs, Handle;
    var j := FirstMatch(rule, s, 0);
    if j < |s| { MatchNeeds(rule, s, j); }
  }

  lemma Matches(rule: Rule, s: string, p: nat)
    requires p < |s| && MatchEnd(rule, s, p) > p && forall i :: 0 <= i < p ==> !Needs(rule, s, i)
    ensures Apply(rule, s) == Handle(rule, s, p)
  {
    hide MatchEnd, Needs, Handle;
    var j := FirstMatch(rule, s, 0);
    if j < p { MatchNeeds(rule, s, j); }
  }

  /** A run that stops at a known place. */
  lemma {:induction false} RunIs(s: string, i: nat, stop: nat, cls: Class, j: nat)
    requires i <= j <= stop <= |s| && (forall k :: i <= k < j ==> InClass(s[k], cls))
    requires j < stop ==> !InClass(s[j], cls)
    ensures RunEnd(s, i, stop, cls) == j
    decreases j - i
  {
    if i < j { RunIs(s, i + 1, stop, cls, j); }
  }

  // ---------------------------------------------------------------------
  // Calm texts, and trees with one tag
  // ---------------------------------------------------------------------

  lemma CalmDeclines(rule: Rule, s: string)
    requires AllCalm(s)
    ensures Apply(rule, s) == Declined(s)
  {
    hide Apply;
    forall i | 0 <= i < |s| ensures !Needs(rule, s, i) {
      AllAreCalm(s);
      SchemeHasColon(s, i);
    }
    Declines(rule, s);
  }

  lemma AllAreCalm(s: string)
    requires AllCalm(s)
    ensures forall k :: 0 <= k < |s| ==> Calm(s[k])
  {
    assert forall k :: 0 <= k < |s| ==> s[k] in s;
  }

  lemma SchemeHasColon(s: string, i: nat)
    requires i <= |s|
    ensures HasUrlScheme(s[i..]) ==> exists k :: i < k < |s| && s[k] == ':'
  {
    if HasUrlScheme(s[i..]) { ColonIn(s, i); }
  }

  lemma ColonIn(s: string, i: nat)
    requires i <= |s| && HasUrlScheme(s[i..])
    ensures exists k :: i < k < |s| && s[k] == ':'
  {
    Front(s, i, "https:");
    Front(s, i, "http:");
    Front(s, i, "mailto:");
    if "https:" <= s[i..] { assert s[i + 5] == ':'; }
    else if "http:" <= s[i..] { assert s[i + 4] == ':'; }
    else { assert s[i + 6] == ':'; }
  }

  lemma {:induction false} SkipRules(str: string, r: nat, k: nat)
    requires r <= k <= |RULES| && forall i :: r <= i < k ==> Apply(RULES[i], str) == Declined(str)
    ensures TryRules(str, true, r) == TryRules(str, true, k)
    decreases k - r
  {
    hide Apply;
    if r < k { SkipRules(str, r + 1, k); }
  }

  lemma CalmTree(s: string, nested: bool)
    requires nested ==> AllCalm(s)
    ensures MakeTag(s, nested, false) == Group([Leaf(s)]) && ToHtml(MakeTag(s, nested, false)) == Escape(s)
  {
    if nested {
      forall i | 0 <= i < |RULES| ensures Apply(RULES[i], s) == Declined(s) { CalmDeclines(RULES[i], s); }
      hide Apply;
      SkipRules(s, 0, |RULES|);
    }
    assert [Leaf(s)][1..] == [] && AllToHtml([Leaf(s)]) == Escape(s) + "" == Escape(s);
  }

  /** The HTML of a message whose first rule to cut leaves calm parts. */
  lemma OneTag(str: string, r: nat, o: Outcome)
    requires r < |RULES| && forall k :: 0 <= k < r ==> Apply(RULES[k], str) == Declined(str)
    requires o.Cut? && Apply(RULES[r], str) == o && !("> " <= str)
    requires AllCalm(o.before) && (o.nested ==> AllCalm(o.content)) && AllCalm(o.after)
    ensures ToHtml(MakeTag(str, true, true)) ==
      Escape(o.before) + (StartTag(o.names, o.attrs) + Escape(o.content) + CloseTags(o.names)) + Escape(o.after)
  {
    hide Apply, AllCalm, StartTag, CloseTags;
    SkipRules(str, 0, r);
    ApplyShrinks(RULES[r], str);
    CalmTree(o.before, true);
    CalmTree(o.content, o.nested);
    CalmTree(o.after, true);
    var tag := Tag(o.names, o.attrs, MakeTag(o.content, o.nested, false));
    ThreeNodes(o.before, tag, o.after);
  }

  lemma ThreeNodes(before: string, tag: Node, after: string)
    ensures ToHtml(Group((if before != "" then [MakeTag(before, true, false)] else []) + [tag]
                         + (if after != "" then [MakeTag(after, true, false)] else [])))
      == (if before != "" then ToHtml(MakeTag(before, true, false)) else "") + ToHtml(tag)
         + (if after != "" then ToHtml(MakeTag(after, true, false)) else "")
  {
    hide MakeTag;
    var a := if before != "" then [MakeTag(before, true, false)] else [];
    var c := if after != "" then [MakeTag(after, true, false)] else [];
    HtmlConcat(a, [tag]);
    HtmlConcat(a + [tag], c);
    HtmlOne(tag);
    if before != "" { HtmlOne(a[0]); }
    if after != "" { HtmlOne(c[0]); }
  }

  lemma HtmlOne(node: Node)
    ensures AllToHtml([node]) == ToHtml(node)
  {
    assert [node][1..] == [] && ToHtml(node) + "" == ToHtml(node);
  }

  lemma {:induction false} HtmlConcat(a: seq<Node>, b: seq<Node>)
    ensures AllToHtml(a + b) == AllToHtml(a) + AllToHtml(b)
  {
    hide ToHtml;
    if a == [] {
      assert a + b == b;
    } else {
      HtmlConcat(a[1..], b);
      assert (a + b)[1..] == a[1..] + b && (a + b)[0] == a[0];
      assert ToHtml(a[0]) + (AllToHtml(a[1..]) + AllToHtml(b)) == ToHtml(a[0]) + AllToHtml(a[1..]) + AllToHtml(b);
    }
  }

  // ---------------------------------------------------------------------
  // Marks
  // ---------------------------------------------------------------------

  /** The number of the rule for a mark, and the HTML that the mark stands for. */
  predicate IsPair(r: nat, mark: string, open: string, close: string) {
    || (r == 0 && mark == "`" && open == "<code>" && close == "</code>")
    || (r == 1 && mark == "***" && open == "<em><strong>" && close == "</strong></em>")
    || (r == 2 && mark == "**" && open == "<strong>" && close == "</strong>")
    || (r == 3 && mark == "*" && open == "<em>" && close == "</em>")
    || (r == 5 && mark == "\U{0002}" && open == "<strong>" && close == "</strong>")
    || (r == 5 && mark == "\U{001D}" && open == "<em>" && close == "</em>")
    || (r == 5 && mark == "\U{001F}" && open == "<u>" && close == "</u>")
    || (r == 5 && mark == "\U{0011}" && open == "<code>" && close == "</code>")
    || (r == 5 && mark == "\U{001E}" && open == "<span>" && close == "</span>")
  }

  ghost predicate CalmParts(before: string, text: string, after: string) {
    AllCalm(before) && AllCalm(text) && AllCalm(after) && text != "" && !IsSpace(text[0])
  }

  /** Where the characters of a marked text stand. */
  ghost predicate Marked(str: string, p: nat, mark: string, q: nat) {
    && mark != "" && p + |mark| < q && q + |mark| <= |str|
    && (forall i :: 0 <= i < |str| && !(p <= i < p + |mark|) && !(q <= i < q + |mark|) ==> Calm(str[i]))
    && (forall k :: 0 <= k < |mark| ==> str[p + k] == mark[k] && str[q + k] == mark[k])
  }

  function MarkMessage(before: string, mark: string, text: string, after: string): string {
    before + mark + text + mark + after
  }

  lemma MarkedPlaces(before: string, mark: string, text: string, after: string)
    requires CalmParts(before, text, after) && mark != ""
    ensures var str, p, q := MarkMessage(before, mark, text, after), |before|, |before| + |mark| + |text|;
      && Marked(str, p, mark, q) && str[p + |mark|] == text[0]
      && str[..p] == before && str[p..p + |mark|] == mark && str[p + |mark|..] == text + mark + after
  {
    hide Calm, AllCalm, Marked;
    var str := MarkMessage(before, mark, text, after);
    FivePlaces(before, mark, text, after);
    AllAreCalm(before);
    AllAreCalm(text);
    AllAreCalm(after);
    MarkedFrom(str, before, mark, text, after);
  }

  ghost predicate AtPlaces(str: string, before: string, mark: string, text: string, after: string) {
    var m, t := |mark|, |text|;
    && |str| == |before| + m + t + m + |after|
    && (forall i :: 0 <= i < |before| ==> str[i] == before[i])
    && (forall k :: 0 <= k < m ==> str[|before| + k] == mark[k] && str[|before| + m + t + k] == mark[k])
    && (forall i :: |before| + m <= i < |before| + m + t ==> str[i] == text[i - |before| - m])
    && (forall i :: |before| + m + t + m <= i < |str| ==> str[i] == after[i - |before| - m - t - m])
  }

  lemma FivePlaces(before: string, mark: string, text: string, after: string)
    ensures var str := MarkMessage(before, mark, text, after);
      && AtPlaces(str, before, mark, text, after)
      && str[..|before|] == before && str[|before|..|before| + |mark|] == mark
      && str[|before| + |mark|..] == text + mark + after
  {
  }

  lemma MarkedFrom(str: string, before: string, mark: string, text: string, after: string)
    requires AtPlaces(str, before, mark, text, after) && mark != "" && text != ""
    requires (forall k :: 0 <= k < |before| ==> Calm(before[k])) && (forall k :: 0 <= k < |text| ==> Calm(text[k]))
    requires forall k :: 0 <= k < |after| ==> Calm(after[k])
    ensures Marked(str, |before|, mark, |before| + |mark| + |text|) && str[|before| + |mark|] == text[0]
  {
    hide Calm;
  }

  /** The rules before that of the mark find nothing. */
  lemma EarlierDecline(r: nat, str: string, p: nat, mark: string, q: nat, open: string, close: string, k: nat)
    requires IsPair(r, mark, open, close) && Marked(str, p, mark, q) && k < r
    ensures Apply(RULES[k], str) == Declined(str)
  {
    hide Apply;
    OnlyMarks(r, str, p, mark, q, open, close);
    hide Marked, IsPair;
    forall i | 0 <= i < |str| ensures !Needs(RULES[k], str, i) {
      NotNeeded(r, str, p, mark, q, k, i);
    }
    Declines(RULES[k], str);
  }

  /** Every other character is calm, and a mark repeats one character. */
  ghost predicate MarksOnly(r: nat, str: string, p: nat, mark: string, q: nat) {
    && 1 <= |mark| <= 3 && p + |mark| < q && q + |mark| <= |str| && r in {0, 1, 2, 3, 5}
    && (forall i :: 0 <= i < |str| ==>
          Calm(str[i]) || (str[i] == mark[0] && (p <= i < p + |mark| || q <= i < q + |mark|)))
    && (if r == 0 then mark[0] == '`' else if r == 5 then mark[0] !in {'*', '`', '\U{0003}'}
        else mark[0] == '*' && |mark| == 4 - r)
  }

  lemma OnlyMarks(r: nat, str: string, p: nat, mark: string, q: nat, open: string, close: string)
    requires IsPair(r, mark, open, close) && Marked(str, p, mark, q)
    ensures MarksOnly(r, str, p, mark, q)
  {
    hide Calm;
    forall i | 0 <= i < |str|
      ensures Calm(str[i]) || (str[i] == mark[0] && (p <= i < p + |mark| || q <= i < q + |mark|))
    {
      if p <= i < p + |mark| { assert str[i] == mark[i - p]; }
      else if q <= i < q + |mark| { assert str[i] == mark[i - q]; }
    }
  }

  lemma NotNeeded(r: nat, str: string, p: nat, mark: string, q: nat, k: nat, i: nat)
    requires MarksOnly(r, str, p, mark, q) && k < r && i < |str|
    ensures !Needs(RULES[k], str, i)
  {
    if k == 1 && i + 2 < |str| {
      assert Calm(str[i]) || Calm(str[i + 1]) || Calm(str[i + 2]) || mark[0] != '*';
    } else if k == 2 && i + 1 < |str| {
      assert Calm(str[i]) || Calm(str[i + 1]) || mark[0] != '*';
    }
  }

  lemma FirstOccurrence(text: string, mark: string, after: string)
    requires AllCalm(text) && mark != "" && !Calm(mark[0])
    ensures IndexOf(text + mark + after, mark) == |text|
  {
    hide Calm;
    var s := text + mark + after;
    AllAreCalm(text);
    assert s[|text|..|text| + |mark|] == mark;
    assert OccursAt(s, mark, |text|);
    forall i | 0 <= i < |text| ensures !OccursAt(s, mark, i) {
      assert Calm(s[i]);
      if i + |mark| <= |s| { assert s[i..i + |mark|][0] == s[i]; }
    }
  }

  lemma MarkMatches(r: nat, str: string, p: nat, mark: string, q: nat, open: string, close: string)
    requires IsPair(r, mark, open, close) && Marked(str, p, mark, q) && !IsSpace(str[p + |mark|])
    requires str[p..p + |mark|] == mark
    ensures MatchEnd(RULES[r], str, p) == p + |mark|
    ensures forall i :: 0 <= i < p ==> !Needs(RULES[r], str, i)
  {
    assert Calm(str[p + |mark|]);
    assert StartsAt(str, p, mark);
  }

  /** The rule of a mark finds its first one. */
  lemma MarkIsFound(r: nat, before: string, mark: string, text: string, after: string, open: string, close: string)
    requires IsPair(r, mark, open, close) && r < |RULES| && mark != "" && CalmParts(before, text, after)
    ensures var str, p := MarkMessage(before, mark, text, after), |before|;
      MatchEnd(RULES[r], str, p) == p + |mark| && Apply(RULES[r], str) == Handle(RULES[r], str, p)
  {
    hide MarkMessage, Apply, MatchEnd, Marked, AllCalm, Calm, IsSpace, IsPair, Needs, Handle;
    MarkedPlaces(before, mark, text, after);
    var str, p := MarkMessage(before, mark, text, after), |before|;
    MarkMatches(r, str, p, mark, p + |mark| + |text|, open, close);
    Matches(RULES[r], str, p);
  }

  /** And cuts exactly there. */
  lemma MarkCuts(r: nat, before: string, mark: string, text: string, after: string, open: string, close: string)
    returns (names: seq<string>)
    requires IsPair(r, mark, open, close) && CalmParts(before, text, after)
    ensures Apply(RULES[r], MarkMessage(before, mark, text, after)) == Cut(before, names, [], text, r != 0, after)
    ensures OpenTags(names) == open && CloseTags(names) == close
  {
    MarkIsLoud(r, mark, open, close);
    hide MarkMessage, Apply, MatchEnd, Marked, AllCalm, Calm, IsSpace, IsPair, OpenTags, CloseTags, Needs, IrcName;
    names := NamesOf(r, mark, open, close);
    NoEscape(before);
    MarkIsFound(r, before, mark, text, after, open, close);
    FirstOccurrence(text, mark, after);
    MarkedPlaces(before, mark, text, after);
    MarkHandled(r, MarkMessage(before, mark, text, after), before, mark, text, after, names, open, close);
  }

  lemma MarkIsLoud(r: nat, mark: string, open: string, close: string)
    requires IsPair(r, mark, open, close)
    ensures mark != "" && !Calm(mark[0]) && r < |RULES|
  {
  }

  lemma NoEscape(before: string)
    requires AllCalm(before)
    ensures before != "" ==> before[|before| - 1] != '\\'
  {
    if before != "" { assert before[|before| - 1] in before; }
  }

  predicate IsNames(r: nat, mark: string, names: seq<string>) {
    match r
    case 0 => names == ["code"]
    case 1 => names == ["em", "strong"]
    case 2 => names == ["strong"]
    case 3 => names == ["em"]
    case _ => mark != "" && names == [IrcName(mark[0])]
  }

  /** The names of a mark's tags. */
  lemma NamesOf(r: nat, mark: string, open: string, close: string) returns (names: seq<string>)
    requires IsPair(r, mark, open, close)
    ensures OpenTags(names) == open && CloseTags(names) == close && IsNames(r, mark, names)
  {
    hide OpenTags, CloseTags;
    match r {
      case 0 => names := ["code"]; OneName("code");
      case 1 => names := ["em", "strong"]; TwoNames();
      case 2 => names := ["strong"]; OneName("strong");
      case 3 => names := ["em"]; OneName("em");
      case _ => names := [IrcName(mark[0])]; OneName(names[0]);
    }
  }

  lemma TwoNames()
    ensures OpenTags(["em", "strong"]) == "<em><strong>" && CloseTags(["em", "strong"]) == "</strong></em>"
  {
    assert ["em", "strong"][1..] == ["strong"];
    OneName("strong");
    assert OpenTags(["em", "strong"]) == "<em>" + "<strong>";
    assert CloseTags(["em", "strong"]) == "</strong>" + "</em>";
  }

  lemma OneName(name: string)
    ensures OpenTags([name]) == "<" + name + ">" && CloseTags([name]) == "</" + name + ">"
  {
    assert [name][1..] == [];
  }

  lemma MarkHandled(r: nat, str: string, before: string, mark: string, text: string, after: string,
                    names: seq<string>, open: string, close: string)
    requires IsPair(r, mark, open, close) && r < |RULES| && mark != "" && |before| + |mark| <= |str|
    requires MatchEnd(RULES[r], str, |before|) == |before| + |mark|
    requires str[..|before|] == before && str[|before|..|before| + |mark|] == mark
    requires str[|before| + |mark|..] == text + mark + after
    requires IndexOf(text + mark + after, mark) == |text| && (before != "" ==> before[|before| - 1] != '\\')
    requires IsNames(r, mark, names)
    ensures Handle(RULES[r], str, |before|) == Cut(before, names, [], text, r != 0, after)
  {
    hide MatchEnd, IrcName, Enclosed, Handle, IsPair, HandleTag, IndexOf, IsNames;
    HandledAs(r, mark, open, close, str, |before|, names);
    EnclosedIn(str, before, mark, text, after, names, r != 0);
    NotEscaped(str, before, mark, text + mark + after, names, r != 0);
  }

  lemma NotEscaped(str: string, before: string, mark: string, after: string, names: seq<string>, nested: bool)
    requires mark != "" && (before != "" ==> before[|before| - 1] != '\\')
    ensures HandleTag(str, before, mark, after, names, nested)
      == Enclosed(str, before, mark, after, names, [], nested, mark)
  {
    hide Enclosed;
  }

  lemma HandledAs(r: nat, mark: string, open: string, close: string, str: string, i: nat, names: seq<string>)
    requires IsPair(r, mark, open, close) && r < |RULES| && mark != ""
    requires i + |mark| <= |str| && MatchEnd(RULES[r], str, i) == i + |mark| && str[i..i + |mark|] == mark
    requires IsNames(r, mark, names)
    ensures Handle(RULES[r], str, i) ==
        if r == 5 then Enclosed(str, str[..i], mark, str[i + |mark|..], names, [], true, mark)
        else HandleTag(str, str[..i], mark, str[i + |mark|..], names, r != 0)
  {
    hide MatchEnd, IrcName, Enclosed, HandleTag;
  }

  lemma EnclosedIn(str: string, before: string, mark: string, text: string, after: string, names: seq<string>,
                   nested: bool)
    requires mark != "" && IndexOf(text + mark + after, mark) == |text|
    ensures Enclosed(str, before, mark, text + mark + after, names, [], nested, mark)
      == Cut(before, names, [], text, nested, after)
  {
    var rest := text + mark + after;
    assert rest[..|text|] == text && rest[|text| + |mark|..] == after;
  }

  /** What a mark makes: around a calm text that does not begin with white space, in a
      calm message, it becomes the tags it stands for, and everything else is text. */
  lemma MarksMakeTags(r: nat, before: string, mark: string, text: string, after: string, open: string, close: string)
    requires IsPair(r, mark, open, close) && CalmParts(before, text, after)
    requires !("> " <= MarkMessage(before, mark, text, after))
    ensures ToHtml(MakeTag(MarkMessage(before, mark, text, after), true, true)) ==
      Escape(before) + (open + Escape(text) + close) + Escape(after)
  {
    var str, p, q := MarkMessage(before, mark, text, after), |before|, |before| + |mark| + |text|;
    MarkedPlaces(before, mark, text, after);
    forall k | 0 <= k < r ensures Apply(RULES[k], str) == Declined(str) {
      EarlierDecline(r, str, p, mark, q, open, close, k);
    }
    var names := MarkCuts(r, before, mark, text, after, open, close);
    hide MarkMessage, Apply, Marked, AllCalm, Calm, IsSpace, IsPair, OpenTags, CloseTags;
    OneTag(str, r, Cut(before, names, [], text, r != 0, after));
  }

  // ---------------------------------------------------------------------
  // Links
  // ---------------------------------------------------------------------

  /** No marks and no colours. */
  ghost predicate Unmarked(s: string) { forall c :: c in s ==> !MarkChar(c) && c != '\U{0003}' }

  function LinkMessage(before: string, text: string, target: string, after: string): string {
    before + "[" + text + ("](" + target + ")") + after
  }

  ghost predicate LinkAt(str: string, before: string, text: string, target: string, after: string) {
    var p, t := |before|, |before| + 1 + |text|;
    var e := t + 2 + |target|;
    && e < |str| && str[..p] == before && str[p + 1..t] == text && str[t + 2..e] == target && str[e + 1..] == after
    && str[p] == '[' && str[t] == ']' && str[t + 1] == '(' && str[e] == ')'
  }

  lemma LinkPlaces(before: string, text: string, target: string, after: string)
    ensures LinkAt(LinkMessage(before, text, target, after), before, text, target, after)
  {
    var close := "](" + target + ")";
    var str := before + "[" + text + close + after;
    var t := |before| + 1 + |text|;
    assert str[t..t + |close|] == close;
    assert str[t + 2..t + 2 + |target|] == close[2..2 + |target|] == target;
    assert str[t] == close[0] && str[t + 1] == close[1] && str[t + 2 + |target|] == close[2 + |target|];
  }

  lemma UnmarkedDeclines(str: string, k: nat)
    requires Unmarked(str) && k < 6
    ensures Apply(RULES[k], str) == Declined(str)
  {
    hide Apply;
    assert forall i :: 0 <= i < |str| ==> str[i] in str;
    Declines(RULES[k], str);
  }

  /** A run over a known piece. */
  lemma RunOver(s: string, i: nat, j: nat, cls: Class, piece: string)
    requires i <= j < |s| && s[i..j] == piece && (forall c :: c in piece ==> InClass(c, cls)) && !InClass(s[j], cls)
    ensures RunEnd(s, i, |s|, cls) == j
  {
    hide RunEnd, InClass;
    forall k | i <= k < j ensures InClass(s[k], cls) { assert s[k] == piece[k - i] && piece[k - i] in piece; }
    RunIs(s, i, |s|, cls, j);
  }

  lemma LinkRuns(str: string, before: string, text: string, target: string, after: string)
    requires LinkAt(str, before, text, target, after) && ']' !in text && ')' !in target
    ensures var t := |before| + 1 + |text|;
      && RunEnd(str, |before| + 1, |str|, NonBracket) == t
      && RunEnd(str, t + 2, |str|, NonParen) == t + 2 + |target|
  {
    BracketRun(str, |before| + 1, |before| + 1 + |text|, text);
    ParenRun(str, |before| + 1 + |text| + 2, |before| + 1 + |text| + 2 + |target|, target);
    hide RunEnd;
  }

  lemma BracketRun(s: string, i: nat, j: nat, text: string)
    requires i <= j < |s| && s[i..j] == text && ']' !in text && s[j] == ']'
    ensures RunEnd(s, i, |s|, NonBracket) == j
  {
    hide RunEnd;
    RunOver(s, i, j, NonBracket, text);
  }

  lemma ParenRun(s: string, i: nat, j: nat, target: string)
    requires i <= j < |s| && s[i..j] == target && ')' !in target && s[j] == ')'
    ensures RunEnd(s, i, |s|, NonParen) == j
  {
    hide RunEnd;
    RunOver(s, i, j, NonParen, target);
  }

  lemma LinkMatch(str: string, p: nat, t: nat, e: nat)
    requires p + 1 < t && t + 2 < e < |str| && str[p] == '[' && str[t] == ']' && str[t + 1] == '(' && str[e] == ')'
    requires RunEnd(str, p + 1, |str|, NonBracket) == t && RunEnd(str, t + 2, |str|, NonParen) == e
    ensures MatchEnd(Link, str, p) == e + 1
  {
    hide RunEnd;
    assert str[p..p + 1] == "[" && str[t..t + 2] == "](" && str[e..e + 1] == ")";
  }

  lemma LinkCuts(str: string, before: string, text: string, target: string, after: string)
    requires LinkAt(str, before, text, target, after) && text != "" && target != "" && ']' !in text && ')' !in target
    requires AllCalm(before)
    ensures Apply(Link, str) == Cut(before, ["a"],
      [("href", Escape(target))] + if HasScheme(target) then [("target", "_blank")] else [], text, false, after)
  {
    hide Apply, MatchEnd, RunEnd, HasScheme, Escape, Handle;
    var p, t := |before|, |before| + 1 + |text|;
    LinkRuns(str, before, text, target, after);
    LinkMatch(str, p, t, t + 2 + |target|);
    forall i | 0 <= i < p ensures !Needs(Link, str, i) { assert str[i] == before[i] && before[i] in before; }
    hide Needs, AllCalm;
    Matches(Link, str, p);
    LinkHandled(str, p);
  }

  /** The start tag of a link. */
  lemma LinkTag(href: string, blank: bool)
    requires '$' !in href
    ensures StartTag(["a"], [("href", href)] + if blank then [("target", "_blank")] else [])
      == "<a href=\"" + href + "\"" + (if blank then " target=\"_blank\"" else "") + ">"
  {
    var attrs := [("href", href)] + if blank then [("target", "_blank")] else [];
    var more := if blank then " target=\"_blank\"" else "";
    assert attrs[1..] == if blank then [("target", "_blank")] else [];
    BlankText();
    var text := AttrText(attrs);
    assert text == " " + "href" + "=\"" + href + "\"" + more;
    hide AttrText;
    PlainStart("a", attrs);
    LinkTagText(href, more);
  }

  lemma BlankText()
    ensures AttrText([("target", "_blank")]) == " target=\"_blank\"" && AttrText([]) == ""
  {
    assert [("target", "_blank")][1..] == [];
  }

  lemma LinkTagText(href: string, more: string)
    ensures "<" + "a" + (" " + "href" + "=\"" + href + "\"" + more + ">") == "<a href=\"" + href + "\"" + more + ">"
  {
    assert "<" + "a" + (" " + "href" + "=\"") == "<a href=\"";
  }

  /** A scheme in lower case, or no colon at all. */
  ghost predicate Opens(target: string, blank: bool) {
    if blank then exists j :: 0 < j < |target| && target[j] == ':' && forall i :: 0 <= i < j ==> 'a' <= target[i] <= 'z'
    else ':' !in target
  }

  lemma SchemeIs(target: string, blank: bool)
    requires Opens(target, blank)
    ensures HasScheme(target) == blank
  {
    if blank {
      var j :| 0 < j < |target| && target[j] == ':' && forall i :: 0 <= i < j ==> 'a' <= target[i] <= 'z';
      assert forall i :: 0 <= i < j ==> IsWord(target[i]);
    }
  }

  /** A link in a calm message shows its text and leads to its target, in a new window
      if the target has a scheme. */
  lemma LinksMakeAnchors(before: string, text: string, target: string, after: string, blank: bool)
    requires AllCalm(before) && AllCalm(after) && Unmarked(text) && Unmarked(target) && Opens(target, blank)
    requires text != "" && target != "" && ']' !in text && ')' !in target && '$' !in target
    requires !("> " <= LinkMessage(before, text, target, after))
    ensures ToHtml(MakeTag(LinkMessage(before, text, target, after), true, true)) ==
      Escape(before)
      + ("<a href=\"" + Escape(target) + "\"" + (if blank then " target=\"_blank\"" else "") + ">"
         + Escape(text) + "</a>")
      + Escape(after)
  {
    hide Apply, AllCalm, Unmarked, Escape, LinkMessage, LinkAt, StartTag, CloseTags, HasScheme, Quoted, MakeTag, ToHtml;
    hide Opens;
    var str := LinkMessage(before, text, target, after);
    LinkPlaces(before, text, target, after);
    AllUnmarked(before, text, target, after);
    forall k | 0 <= k < 6 ensures Apply(RULES[k], str) == Declined(str) { UnmarkedDeclines(str, k); }
    LinkCuts(str, before, text, target, after);
    SchemeIs(target, blank);
    EscapeIsQuoted(target);
    LinkTag(Escape(target), blank);
    OneName("a");
    assert RULES[6] == Link;
    OneTag(str, 6, Apply(Link, str));
  }

  lemma AllUnmarked(before: string, text: string, target: string, after: string)
    requires AllCalm(before) && AllCalm(after) && Unmarked(text) && Unmarked(target)
    ensures Unmarked(LinkMessage(before, text, target, after))
  {
  }

  // ---------------------------------------------------------------------
  // URLs
  // ---------------------------------------------------------------------

  /** A scheme and what is shown of it. */
  predicate IsScheme(scheme: string, shown: string) {
    || (scheme == "https://" && shown == "") || (scheme == "http://" && shown == "http://")
    || (scheme == "mailto:" && shown == "")
  }

  predicate UrlChar(c: char) {
    'a' <= c <= 'z' || 'A' <= c <= 'Z' || '0' <= c <= '9' || c in {'/', '-', '_', '?', '=', '&', '@', '.'}
  }

  /** A path that ends in no punctuation. */
  ghost predicate IsPath(rest: string) {
    rest != "" && (forall c :: c in rest ==> UrlChar(c)) && rest[|rest| - 1] != '.' && rest[0] != '/'
  }

  /** Words in front and behind are apart from a URL or a channel name. */
  predicate Apart(before: string, after: string) {
    (before == "" || before[|before| - 1] == ' ') && (after == "" || after[0] == ' ')
  }

  /** The characters of a scheme. */
  lemma SchemeChars(s: string, i: nat)
    requires i <= |s|
    ensures "https:" <= s[i..] ==> i + 5 < |s| && s[i] == 'h' && s[i + 1] == s[i + 2] == 't' && s[i + 5] == ':'
    ensures "http:" <= s[i..] ==> i + 4 < |s| && s[i] == 'h' && s[i + 1] == s[i + 2] == 't' && s[i + 4] == ':'
    ensures "mailto:" <= s[i..] ==> i + 6 < |s| && s[i + 1] == 'a' && s[i + 2] == 'i' && s[i + 6] == ':'
  {
    Front(s, i, "https:");
    Front(s, i, "http:");
    Front(s, i, "mailto:");
  }

  /** No scheme begins in a calm text in front of one. */
  lemma NoEarlierScheme(str: string, p: nat, scheme: string, shown: string, i: nat)
    requires IsScheme(scheme, shown) && i < p && p + |scheme| <= |str|
    requires forall k :: 0 <= k < |scheme| ==> str[p + k] == scheme[k]
    requires forall k :: 0 <= k < p ==> str[k] != ':'
    ensures !HasUrlScheme(str[i..])
  {
    SchemeChars(str, i);
    assert str[p] == scheme[0] && str[p + 1] == scheme[1] && str[p + 2] == scheme[2] && str[p + 3] == scheme[3];
    assert str[p + 4] == scheme[4] && str[p + 5] == scheme[5];
  }

  /** Whatever may stand in a path is neither white space nor a mark nor special to
      another rule. */
  lemma PathIsPlain(rest: string)
    requires IsPath(rest)
    ensures rest != "" && rest[0] != '/' && Unmarked(rest) && '[' !in rest && '$' !in rest
    ensures forall c :: c in rest ==> InClass(c, NonSpace)
    ensures rest[|rest| - 1] !in {',', '.', ':', ';', '!', '"', '\'', ')'}
  {
    assert rest[|rest| - 1] in rest;
  }

  lemma SchemeIsPlain(scheme: string, shown: string)
    requires IsScheme(scheme, shown)
    ensures Unmarked(scheme) && '[' !in scheme && '$' !in scheme && forall c :: c in scheme ==> InClass(c, NonSpace)
    ensures |scheme| >= 7
  {
  }

  /** The end of the scheme's own match. */
  lemma SchemeIsFound(str: string, p: nat, scheme: string, shown: string)
    requires IsScheme(scheme, shown) && p + |scheme| <= |str| && str[p..p + |scheme|] == scheme
    ensures p < SchemeEnd(str, p) <= p + |scheme|
  {
    Front(str, p, "https:");
    Front(str, p, "http:");
    assert str[p] == scheme[0] && str[p + 4] == scheme[4];
    if scheme == "https://" { assert str[p..p + 6] == scheme[..6] == "https:"; }
    else if scheme == "http://" { assert str[p..p + 5] == scheme[..5] == "http:"; }
    else { assert str[p..p + 7] == "mailto:"; }
  }

  lemma NothingEarlier(before: string, scheme: string, shown: string, rest: string, after: string)
    requires IsScheme(scheme, shown) && AllCalm(before)
    ensures var str := before + (scheme + rest) + after;
      forall i :: 0 <= i < |before| ==> !Needs(Url, str, i)
  {
    hide IsScheme, AllCalm, HasUrlScheme;
    var str, p := before + (scheme + rest) + after, |before|;
    NoColons(before);
    assert forall k :: 0 <= k < p ==> str[k] == before[k];
    forall k | 0 <= k < |scheme| ensures str[p + k] == scheme[k] { assert str[p + k] == (scheme + rest)[k]; }
    forall i | 0 <= i < p ensures !Needs(Url, str, i) { NoEarlierScheme(str, p, scheme, shown, i); }
  }

  /** A path and a punctuation mark, or none, behind it. */
  ghost predicate IsTail(tail: string) {
    tail == "" || (|tail| == 1 && tail[0] in {',', '.', ';', '!', '"', '\'', ')'})
  }

  lemma TailIsPlain(rest: string, tail: string)
    requires IsPath(rest) && IsTail(tail)
    ensures rest + tail != "" && Unmarked(rest + tail) && '[' !in rest + tail && AllCalm(tail)
    ensures forall c :: c in rest + tail ==> InClass(c, NonSpace)
  {
    PathIsPlain(rest);
  }

  lemma UrlIsFound(before: string, scheme: string, shown: string, rest: string, tail: string, after: string)
    requires IsScheme(scheme, shown) && IsPath(rest) && IsTail(tail) && Apart(before, after)
    ensures MatchEnd(Url, before + (scheme + (rest + tail)) + after, |before|) == |before| + |scheme + (rest + tail)|
  {
    hide IsScheme, IsPath, RunEnd, SchemeEnd, InClass, IsTail;
    var url := scheme + (rest + tail);
    var str, p, end := before + url + after, |before|, |before| + |url|;
    assert url[..|scheme|] == scheme;
    PlacesOfUrl(before, url, after, |scheme|);
    SchemeIsFound(str, p, scheme, shown);
    TailIsPlain(rest, tail);
    SchemeIsPlain(scheme, shown);
    UrlRun(str, p, url, after);
    RunFrom(str, SchemeEnd(str, p), end);
  }

  lemma PlacesOfUrl(before: string, url: string, after: string, n: nat)
    requires n <= |url|
    ensures var str, p := before + url + after, |before|;
      && str[p..p + |url|] == url && str[p..p + n] == url[..n] && str[p + |url|..] == after
      && (before != "" ==> str[p - 1] == before[p - 1])
  {
  }

  lemma NoColons(s: string)
    requires AllCalm(s)
    ensures forall k :: 0 <= k < |s| ==> s[k] != ':'
  {
    AllAreCalm(s);
  }

  lemma UrlRun(str: string, p: nat, url: string, after: string)
    requires p + |url| <= |str| && str[p..p + |url|] == url && str[p + |url|..] == after
    requires (forall c :: c in url ==> InClass(c, NonSpace)) && (after == "" || after[0] == ' ')
    ensures forall k :: p <= k < p + |url| ==> InClass(str[k], NonSpace)
    ensures p + |url| < |str| ==> !InClass(str[p + |url|], NonSpace)
  {
    forall k | p <= k < p + |url| ensures InClass(str[k], NonSpace) {
      assert str[k] == url[k - p] && url[k - p] in url;
    }
    if p + |url| < |str| { assert str[p + |url|] == after[0]; }
  }

  lemma RunFrom(str: string, i: nat, end: nat)
    requires i <= end <= |str| && (forall k :: i <= k < end ==> InClass(str[k], NonSpace))
    requires end < |str| ==> !InClass(str[end], NonSpace)
    ensures RunEnd(str, i, |str|, NonSpace) == end
  {
    hide RunEnd;
    RunIs(str, i, |str|, NonSpace, end);
  }

  lemma UrlHandledAs(before: string, scheme: string, shown: string, rest: string, tail: string, after: string)
    requires IsScheme(scheme, shown) && IsPath(rest) && IsTail(tail)
    ensures HandleUrl(before, scheme + (rest + tail), after) ==
      Cut(before, ["a"], [("href", Escape(scheme + rest)), ("target", "_blank")], shown + rest, false, tail + after)
  {
    hide Escape, UrlChar, BareLink;
    var url := scheme + (rest + tail);
    PathIsPlain(rest);
    assert url == scheme + rest + tail;
    if tail == "" {
      assert url == scheme + rest && url[|url| - 1] == rest[|rest| - 1];
      assert LinkOf(url) == url;
    } else {
      assert url[|url| - 1] == tail[0] && url[..|url| - 1] == scheme + rest;
      assert LinkOf(url) == scheme + rest;
    }
    assert url[|scheme + rest|..] == tail;
    Bare(scheme, shown, rest);
  }

  lemma Bare(scheme: string, shown: string, rest: string)
    requires IsScheme(scheme, shown) && rest != "" && rest[0] != '/'
    ensures BareLink(scheme + rest) == shown + rest
  {
    hide BareLink;
    if scheme == "https://" { BareHttps(rest); }
    else if scheme == "mailto:" { BareMailto(rest); }
    else { BareHttp(rest); }
    assert "" + rest == rest;
  }

  lemma BareHttps(rest: string)
    ensures BareLink("https://" + rest) == rest
  {
    var url := "https://" + rest;
    assert url[0..6] == "https:" && url[6..8] == "//" && url[8..] == rest;
  }

  lemma BareMailto(rest: string)
    requires rest != "" && rest[0] != '/'
    ensures BareLink("mailto:" + rest) == rest
  {
    var url := "mailto:" + rest;
    assert url[0..7] == "mailto:" && url[0] == 'm' && url[7] == rest[0] && url[7..] == rest;
    Front(url, 0, "https:");
    Front(url, 7, "//");
  }

  lemma BareHttp(rest: string)
    ensures BareLink("http://" + rest) == "http://" + rest
  {
    var url := "http://" + rest;
    assert url[0] == 'h' && url[4] == ':' && url[0..] == url;
    Front(url, 0, "https:");
    Front(url, 0, "mailto:");
  }

  /** A URL in a calm message, apart from the words around it, leads to itself and
      shows itself without https:// or mailto:. Punctuation behind it is text. */
  lemma UrlsMakeAnchors(before: string, scheme: string, shown: string, rest: string, tail: string, after: string)
    requires IsScheme(scheme, shown) && IsPath(rest) && IsTail(tail)
    requires AllCalm(before) && AllCalm(after) && Apart(before, after)
    requires !("> " <= before + (scheme + (rest + tail)) + after)
    ensures ToHtml(MakeTag(before + (scheme + (rest + tail)) + after, true, true)) ==
      Escape(before)
      + ("<a href=\"" + Escape(scheme + rest) + "\"" + " target=\"_blank\"" + ">" + Escape(shown + rest) + "</a>")
      + Escape(tail + after)
  {
    hide Apply, AllCalm, Unmarked, Escape, StartTag, CloseTags, MakeTag, ToHtml, IsScheme, IsPath, Apart, Quoted;
    hide OpenTags, AttrText, IsTail;
    var url, link := scheme + (rest + tail), scheme + rest;
    var str := before + url + after;
    UrlIsPlain(scheme, shown, rest, tail);
    forall k | 0 <= k < 7 ensures Apply(RULES[k], str) == Declined(str) { UrlAlone(before, url, after, k); }
    UrlCuts(before, scheme, shown, rest, tail, after);
    EscapeIsQuoted(link);
    LinkTag(Escape(link), true);
    OneName("a");
    var attrs := [("href", Escape(link)), ("target", "_blank")];
    assert [("href", Escape(link))] + [("target", "_blank")] == attrs;
    CalmTogether(tail, after);
    OneTag(str, 7, Cut(before, ["a"], attrs, shown + rest, false, tail + after));
  }

  lemma CalmTogether(a: string, b: string)
    requires AllCalm(a) && AllCalm(b)
    ensures AllCalm(a + b)
  {
  }

  lemma UrlIsPlain(scheme: string, shown: string, rest: string, tail: string)
    requires IsScheme(scheme, shown) && IsPath(rest) && IsTail(tail)
    ensures Unmarked(scheme + (rest + tail)) && '[' !in scheme + (rest + tail) && '$' !in scheme + rest && AllCalm(tail)
  {
    PathIsPlain(rest);
    TailIsPlain(rest, tail);
    SchemeIsPlain(scheme, shown);
  }

  lemma UrlCuts(before: string, scheme: string, shown: string, rest: string, tail: string, after: string)
    requires IsScheme(scheme, shown) && IsPath(rest) && IsTail(tail) && AllCalm(before) && Apart(before, after)
    ensures Apply(RULES[7], before + (scheme + (rest + tail)) + after) ==
      Cut(before, ["a"], [("href", Escape(scheme + rest)), ("target", "_blank")], shown + rest, false, tail + after)
  {
    hide Apply, AllCalm, Escape, IsScheme, IsPath, Apart, Needs, HandleUrl, MatchEnd, IsTail;
    var url := scheme + (rest + tail);
    var str := before + url + after;
    NothingEarlier(before, scheme, shown, rest + tail, after);
    UrlIsFound(before, scheme, shown, rest, tail, after);
    SchemeIsPlain(scheme, shown);
    Matches(Url, str, |before|);
    PlacesOfUrl(before, url, after, 0);
    assert str[..|before|] == before;
    UrlHandledAs(before, scheme, shown, rest, tail, after);
  }

  /** The seven rules before that for URLs. */
  lemma UrlAlone(before: string, url: string, after: string, k: nat)
    requires AllCalm(before) && AllCalm(after) && Unmarked(url) && '[' !in url && k < 7
    ensures Apply(RULES[k], before + url + after) == Declined(before + url + after)
  {
    var str := before + url + after;
    if k < 6 {
      UnmarkedDeclines(str, k);
    } else {
      forall i | 0 <= i < |str| ensures str[i] != '[' { assert str[i] in str; }
      Declines(Link, str);
    }
  }

  // ---------------------------------------------------------------------
  // Channel names
  // ---------------------------------------------------------------------

  predicate NameChar(c: char) {
    'a' <= c <= 'z' || 'A' <= c <= 'Z' || '0' <= c <= '9' || c == '_' || c == '.' || c == '-'
  }

  /** A name of two characters or more that begins with a letter. */
  ghost predicate IsChannelName(name: string) {
    |name| >= 2 && ('a' <= name[0] <= 'z' || 'A' <= name[0] <= 'Z') && forall c :: c in name ==> NameChar(c)
  }

  lemma NameIsPlain(name: string)
    requires IsChannelName(name)
    ensures Unmarked(name) && '[' !in name && ':' !in name && '#' !in name && '$' !in name
    ensures |name| >= 2 && IsLetter(name[0]) && forall k :: 0 <= k < |name| ==> IsChannel(name[k])
  {
    forall k | 0 <= k < |name| ensures IsChannel(name[k]) { assert name[k] in name; }
  }

  /** The rules before that for channel names. */
  lemma ChannelAlone(before: string, name: string, after: string, k: nat)
    requires AllCalm(before) && AllCalm(after) && IsChannelName(name) && k < 8
    ensures Apply(RULES[k], before + ("#" + name) + after) == Declined(before + ("#" + name) + after)
  {
    hide Apply, IsChannelName;
    NameIsPlain(name);
    var url := "#" + name;
    var str := before + url + after;
    if k < 7 {
      UrlAlone(before, url, after, k);
    } else {
      assert ':' !in str;
      forall i | 0 <= i < |str| ensures !Needs(Url, str, i) {
        SchemeHasColon(str, i);
        assert forall j :: 0 <= j < |str| ==> str[j] in str;
      }
      Declines(Url, str);
    }
  }

  lemma ChannelIsFound(str: string, before: string, name: string, after: string)
    requires str == before + ("#" + name) + after && IsChannelName(name) && AllCalm(before) && Apart(before, after)
    ensures var i, end := if before == "" then 0 else |before| - 1, |before| + 1 + |name|;
      && end <= |str| && MatchEnd(ChannelName, str, i) == end
      && forall k :: 0 <= k < i ==> !Needs(ChannelName, str, k)
  {
    hide IsChannelName, AllCalm, RunEnd;
    var p, end := |before|, |before| + 1 + |name|;
    var i := if before == "" then 0 else p - 1;
    NameIsPlain(name);
    PlacesOfUrl(before, "#" + name, after, 1);
    assert ("#" + name)[..1] == "#" && str[p] == '#' && str[p + 1] == name[0];
    NoHash(before);
    forall k | 0 <= k < i ensures !Needs(ChannelName, str, k) {
      assert str[k] == before[k] && str[k + 1] == before[k + 1];
    }
    forall k | p + 2 <= k < end ensures InClass(str[k], Channel) { assert str[k] == name[k - p - 1]; }
    if end < |str| { assert str[end] == after[0]; }
    RunIs(str, p + 2, |str|, Channel, end);
    ChannelMatchEnd(str, i, p, end);
  }

  lemma NoHash(s: string)
    requires AllCalm(s)
    ensures forall k :: 0 <= k < |s| ==> s[k] != '#'
  {
    AllAreCalm(s);
  }

  lemma ChannelMatchEnd(str: string, i: nat, p: nat, end: nat)
    requires p + 2 < end <= |str| && str[p..p + 1] == "#" && IsLetter(str[p + 1])
    requires (i == p == 0 && str[0] == '#') || (i + 1 == p && str[i] == ' ')
    requires RunEnd(str, p + 2, |str|, Channel) == end
    ensures MatchEnd(ChannelName, str, i) == end
  {
    hide RunEnd;
  }

  lemma ChannelCuts(str: string, before: string, name: string, after: string)
    requires str == before + ("#" + name) + after && IsChannelName(name) && AllCalm(before) && Apart(before, after)
    ensures Apply(RULES[8], str) == Cut(before, ["a"], [("href", "./%23" + name)], "#" + name, false, after)
  {
    hide Apply, IsChannelName, AllCalm, MatchEnd, Needs, EncodeChannel;
    var i, end := if before == "" then 0 else |before| - 1, |before| + 1 + |name|;
    ChannelIsFound(str, before, name, after);
    NameIsPlain(name);
    Matches(ChannelName, str, i);
    PlacesOfUrl(before, "#" + name, after, 1);
    hide Handle;
    ChannelHandled(str, i, end, before, name, after);
  }

  lemma ChannelHandled(str: string, i: nat, end: nat, before: string, name: string, after: string)
    requires i <= end <= |str| && MatchEnd(ChannelName, str, i) == end && i < end
    requires i == (if before == "" then 0 else |before| - 1) && end == |before| + 1 + |name|
    requires str[|before|..end] == "#" + name && str[end..] == after && str[..|before|] == before
    requires (before == "" || before[|before| - 1] == ' ') && forall k :: 0 <= k < |name| ==> IsChannel(name[k])
    ensures Handle(ChannelName, str, i) == Cut(before, ["a"], [("href", "./%23" + name)], "#" + name, false, after)
  {
    hide MatchEnd, EncodeChannel, IsChannel;
    EncodedName("#" + name);
    HrefOfChannel(name);
    assert ("#" + name)[1..] == name;
    var captured := str[i..end];
    if before == "" {
      assert captured == "#" + name && str[..0] + captured[..0] == "";
    } else {
      assert str[i] == before[i] && captured == [str[i]] + str[|before|..end] && captured[1..] == "#" + name;
      assert str[..i] + captured[..1] == before;
    }
  }

  lemma HrefTag(href: string)
    requires '$' !in href
    ensures StartTag(["a"], [("href", href)]) == "<a href=\"" + href + "\"" + "" + ">"
  {
    LinkTag(href, false);
    assert [("href", href)] + [] == [("href", href)];
  }

  /** A channel name in a calm message, apart from the words around it, leads to the
      channel's page. */
  lemma ChannelsMakeAnchors(before: string, name: string, after: string)
    requires IsChannelName(name) && AllCalm(before) && AllCalm(after) && Apart(before, after)
    requires !("> " <= before + ("#" + name) + after)
    ensures ToHtml(MakeTag(before + ("#" + name) + after, true, true)) ==
      Escape(before) + ("<a href=\"" + ("./%23" + name) + "\"" + "" + ">" + Escape("#" + name) + "</a>") + Escape(after)
  {
    hide Apply, AllCalm, Unmarked, Escape, StartTag, CloseTags, MakeTag, ToHtml, IsChannelName, Apart;
    hide OpenTags, AttrText;
    var str := before + ("#" + name) + after;
    forall k | 0 <= k < 8 ensures Apply(RULES[k], str) == Declined(str) { ChannelAlone(before, name, after, k); }
    ChannelCuts(str, before, name, after);
    NameIsPlain(name);
    HrefTag("./%23" + name);
    OneName("a");
    OneTag(str, 8, Cut(before, ["a"], [("href", "./%23" + name)], "#" + name, false, after));
  }

  // ---------------------------------------------------------------------
  // Colours
  // ---------------------------------------------------------------------

  function ColorMessage(before: string, code: string, text: string, after: string): string {
    before + code + text + "\U{0003}" + after
  }

  /** A colour in a calm message, around a calm text that begins with a letter, becomes
      a class for its numbers. */
  lemma ColoursMakeClasses(before: string, fg: string, bg: string, text: string, after: string)
    requires AreDigits(fg) && (bg == "" || AreDigits(bg)) && CalmParts(before, text, after) && IsLetter(text[0])
    requires !("> " <= ColorMessage(before, ColorCode(fg, bg), text, after))
    ensures ToHtml(MakeTag(ColorMessage(before, ColorCode(fg, bg), text, after), true, true)) ==
      Escape(before) + ("<span class=\"" + ClassOf(fg, bg) + "\">" + Escape(text) + "</span>") + Escape(after)
  {
    hide ColorMessage, Apply, CalmParts, AllCalm, Escape, StartTag, CloseTags, MakeTag, ToHtml, ClassOf, ColorCode;
    hide AreDigits, OpenTags, AttrText, IsLetter;
    ClassIsPlain(fg, bg);
    var str, cls := ColorMessage(before, ColorCode(fg, bg), text, after), ClassOf(fg, bg);
    CalmPartsAre(before, text, after);
    forall k | 0 <= k < 4 ensures Apply(RULES[k], str) == Declined(str) {
      ColorAlone(before, fg, bg, text, after, k);
    }
    ColorCuts(str, before, fg, bg, text, after);
    SpanTag(cls);
    OneName("span");
    OneTag(str, 4, Cut(before, ["span"], [("class", cls)], text, true, after));
  }

  lemma CalmPartsAre(before: string, text: string, after: string)
    requires CalmParts(before, text, after)
    ensures AllCalm(before) && AllCalm(text) && AllCalm(after) && text != ""
  {
    hide AllCalm;
  }

  lemma ClassIsPlain(fg: string, bg: string)
    requires AreDigits(fg) && (bg == "" || AreDigits(bg))
    ensures fg != "" && '$' !in ClassOf(fg, bg)
  {
  }

  lemma ColorPlaces(before: string, code: string, text: string, after: string)
    ensures var str, p := ColorMessage(before, code, text, after), |before|;
      && p + |code| < |str| && str[..p] == before && str[p..p + |code|] == code
      && str[p + |code|..] == text + "\U{0003}" + after
  {
    assert ColorMessage(before, code, text, after) == before + code + (text + "\U{0003}" + after);
  }

  lemma CodeIsPlain(fg: string, bg: string)
    requires AreDigits(fg) && (bg == "" || AreDigits(bg))
    ensures ColorCode(fg, bg) != "" && forall c :: c in ColorCode(fg, bg) ==> !MarkChar(c)
  {
  }

  lemma ColorAlone(before: string, fg: string, bg: string, text: string, after: string, k: nat)
    requires AllCalm(before) && AllCalm(text) && AllCalm(after) && k < 4
    requires AreDigits(fg) && (bg == "" || AreDigits(bg))
    ensures var str := ColorMessage(before, ColorCode(fg, bg), text, after); Apply(RULES[k], str) == Declined(str)
  {
    hide Apply, ColorCode, AreDigits;
    var code := ColorCode(fg, bg);
    var str := ColorMessage(before, code, text, after);
    CodeIsPlain(fg, bg);
    forall c | c in str ensures !MarkChar(c) {
      assert c in before || c in code || c in text || c in "\U{0003}" || c in after;
    }
    assert forall i :: 0 <= i < |str| ==> str[i] in str;
    Declines(RULES[k], str);
  }

  lemma SpanTag(cls: string)
    requires '$' !in cls
    ensures StartTag(["span"], [("class", cls)]) == "<span class=\"" + cls + "\">"
  {
    assert [("class", cls)][1..] == [] && AttrText([]) == "";
    assert AttrText([("class", cls)]) == " " + "class" + "=\"" + cls + "\"" + "";
    hide AttrText;
    PlainStart("span", [("class", cls)]);
    ClassText(cls);
  }

  lemma ClassText(cls: string)
    ensures "<" + "span" + (" " + "class" + "=\"" + cls + "\"" + "" + ">") == "<span class=\"" + cls + "\">"
  {
    assert "<" + "span" + (" " + "class" + "=\"") == "<span class=\"";
  }

  /** Without a dollar sign, attributes are put in as they are. */
  lemma PlainStart(name: string, attrs: Attrs)
    requires attrs != [] && '$' !in AttrText(attrs)
    ensures StartTag([name], attrs) == "<" + name + (AttrText(attrs) + ">")
  {
    hide AttrText;
    ExpandPlain(AttrText(attrs), ">", "<" + name);
    assert Expand(">", "<" + name) == ">" by { assert ">"[1..] == ""; }
  }

  lemma ColorCuts(str: string, before: string, fg: string, bg: string, text: string, after: string)
    requires AreDigits(fg) && (bg == "" || AreDigits(bg)) && CalmParts(before, text, after) && IsLetter(text[0])
    requires str == ColorMessage(before, ColorCode(fg, bg), text, after)
    ensures Apply(RULES[4], str) == Cut(before, ["span"], [("class", ClassOf(fg, bg))], text, true, after)
  {
    hide ColorMessage, Apply, MatchEnd, Needs, ColorClass, AllCalm, CalmParts, ColorCode, ClassOf, AreDigits, IsLetter;
    hide Handle, IndexOf;
    var code, p := ColorCode(fg, bg), |before|;
    CalmPartsAre(before, text, after);
    CodeIsPlain(fg, bg);
    ColorPlaces(before, code, text, after);
    assert (text + "\U{0003}" + after)[0] == text[0];
    ColorIsFound(str, p, fg, bg, text + "\U{0003}" + after);
    NoColorIn(str, before);
    Matches(IrcColor, str, p);
    FirstOccurrence(text, "\U{0003}", after);
    ClassOfCode(fg, bg);
    ColorHandled(str, before, code, text, after);
  }

  lemma NoColorIn(str: string, before: string)
    requires |before| <= |str| && str[..|before|] == before && AllCalm(before)
    ensures forall i :: 0 <= i < |before| ==> !Needs(IrcColor, str, i)
  {
    AllAreCalm(before);
  }

  lemma ColorHandled(str: string, before: string, code: string, text: string, after: string)
    requires code != "" && |before| + |code| <= |str| && MatchEnd(IrcColor, str, |before|) == |before| + |code|
    requires str[..|before|] == before && str[|before|..|before| + |code|] == code
    requires str[|before| + |code|..] == text + "\U{0003}" + after
    requires IndexOf(text + "\U{0003}" + after, "\U{0003}") == |text|
    ensures Handle(IrcColor, str, |before|) == Cut(before, ["span"], [("class", ColorClass(code))], text, true, after)
  {
    hide MatchEnd, ColorClass, IndexOf;
    var rest := text + "\U{0003}" + after;
    assert rest[..|text|] == text && rest[|text| + 1..] == after;
  }

  lemma ColorIsFound(str: string, p: nat, fg: string, bg: string, rest: string)
    requires AreDigits(fg) && (bg == "" || AreDigits(bg)) && rest != "" && IsLetter(rest[0])
    requires p + |ColorCode(fg, bg)| <= |str|
    requires str[p..p + |ColorCode(fg, bg)|] == ColorCode(fg, bg) && str[p + |ColorCode(fg, bg)|..] == rest
    ensures MatchEnd(IrcColor, str, p) == p + |ColorCode(fg, bg)|
  {
    var code := ColorCode(fg, bg);
    var f, end := p + 1 + |fg|, p + |code|;
    assert str[end] == rest[0];
    forall k | 0 <= k < |code| ensures str[p + k] == code[k] { assert str[p..p + |code|][k] == str[p + k]; }
    DigitsEnd(str, p + 1, f);
    assert str[p] == code[0] && str[p..p + 1] == [str[p]];
    if bg != "" {
      assert str[f] == code[f - p] == ',' && str[f..f + 1] == [str[f]];
      DigitsEnd(str, f + 1, end);
    }
    hide TwoDigits;
  }

  lemma DigitsEnd(s: string, i: nat, j: nat)
    requires i < j < |s| && j <= i + 2 && (forall k :: i <= k < j ==> '0' <= s[k] <= '9') && !('0' <= s[j] <= '9')
    ensures TwoDigits(s, i) == j
  {
    hide RunEnd;
    var stop := if i + 2 <= |s| then i + 2 else |s|;
    forall k | i <= k < j ensures InClass(s[k], Digits) { assert IsDigit(s[k]); }
    RunIs(s, i, stop, Digits, j);
  }

  // ---------------------------------------------------------------------
  // Quotations
  // ---------------------------------------------------------------------

  /** A message that begins with "> " is a quotation of the rest, which is formatted in
      its turn, but only the first "> " counts. */
  lemma QuotesMakeBlockquotes(text: string)
    ensures ToHtml(MakeTag("> " + text, true, true)) ==
      "<blockquote>" + ToHtml(MakeTag(text, true, false)) + "</blockquote>"
    ensures !("> " <= text) ==> MakeTag(text, true, false) == MakeTag(text, true, true)
  {
    hide ToHtml, TryRules;
    assert ("> " + text)[2..] == text;
    OneName("blockquote");
    TagHtml("blockquote", MakeTag(text, true, false));
  }

  lemma TagHtml(name: string, child: Node)
    ensures ToHtml(Tag([name], [], child)) == OpenTags([name]) + ToHtml(child) + CloseTags([name])
  {
  }
}
