/** What the formatter does to the text of a message: each cut is exactly one piece
    of markup around its content, no other character is lost, and each kind of
    markup makes the HTML it stands for. */
module MarkdownText {
  import opened Text
  import opened Markdown
  import opened MarkdownLaws

  // ---------------------------------------------------------------------
  // One cut
  // ---------------------------------------------------------------------

  /** A cut takes one opening and one closing text out, and nothing else. */
  ghost predicate Around(str: string, o: Outcome, open: string, close: string)
    requires o.Cut?
  {
    str == o.before + open + o.content + close + o.after
  }

  /** The closing mark is the first one behind the opening mark. */
  ghost predicate Soonest(content: string, mark: string) {
    forall i :: 0 <= i < |content| ==> !OccursAt(content + mark, mark, i)
  }

  ghost predicate Between(str: string, o: Outcome, mark: string)
    requires o.Cut?
  {
    Around(str, o, mark, mark) && Soonest(o.content, mark)
  }

  predicate IsWhite(c: char) { c == ' ' || '\t' <= c <= '\r' }

  predicate IsNameChar(c: char) {
    'a' <= c <= 'z' || 'A' <= c <= 'Z' || '0' <= c <= '9' || c == '_' || c == '.' || c == '-'
  }

  /** No white space stands behind the opening mark. */
  ghost predicate Hugs(content: string, mark: string) {
    mark != "" && !IsWhite((content + mark)[0])
  }

  /** One or two digits. */
  predicate AreDigits(s: string) { 1 <= |s| <= 2 && forall i :: 0 <= i < |s| ==> '0' <= s[i] <= '9' }

  /** A number of two digits without its leading zero. */
  function Short(digits: string): string
    requires |digits| > 0
  {
    if |digits| == 2 && digits[0] == '0' then digits[1..] else digits
  }

  function ColorCode(fg: string, bg: string): string { "\U{0003}" + fg + if bg == "" then "" else "," + bg }

  function ClassOf(fg: string, bg: string): string
    requires |fg| > 0
  {
    (if bg == "" then "" else "bg-" + bg + " ") + "text-" + Short(fg)
  }

  ghost predicate ColorCut(str: string, o: Outcome, fg: string, bg: string)
    requires o.Cut?
  {
    && AreDigits(fg) && (bg == "" || AreDigits(bg)) && Around(str, o, ColorCode(fg, bg), "\U{0003}")
    && Soonest(o.content, "\U{0003}")
    && o.names == ["span"] && o.attrs == [("class", ClassOf(fg, bg))] && o.nested
  }

  ghost predicate LinkCut(str: string, o: Outcome, target: string)
    requires o.Cut?
  {
    && o.content != "" && ']' !in o.content && target != "" && ')' !in target
    && Around(str, o, "[", "](" + target + ")") && o.names == ["a"] && !o.nested
    && o.attrs == [("href", Escape(target))] + if HasScheme(target) then [("target", "_blank")] else []
  }

  /** What a URL shows of its scheme is its content; what it hides is `hidden`. */
  ghost predicate UrlCut(str: string, o: Outcome, hidden: string)
    requires o.Cut?
  {
    && hidden in {"https://", "https:", "mailto://", "mailto:", ""} && Around(str, o, hidden, "")
    && (hidden == "" ==> "http:" <= o.content) && (forall c :: c in o.content ==> !IsWhite(c))
    && (o.before != "" ==> !IsNameChar(o.before[|o.before| - 1]) || o.before[|o.before| - 1] in {'.', '-'})
    && o.names == ["a"] && !o.nested && o.attrs == [("href", Escape(hidden + o.content)), ("target", "_blank")]
  }

  /** What each rule may cut. */
  ghost predicate IsCut(rule: Rule, str: string, o: Outcome)
    requires o.Cut?
  {
    match rule
    case Code => Between(str, o, "`") && Hugs(o.content, "`") && o.names == ["code"] && o.attrs == [] && !o.nested
    case EmStrong =>
      && Between(str, o, "***") && Hugs(o.content, "***")
      && o.names == ["em", "strong"] && o.attrs == [] && o.nested
    case Strong => Between(str, o, "**") && Hugs(o.content, "**") && o.names == ["strong"] && o.attrs == [] && o.nested
    case Em => Between(str, o, "*") && Hugs(o.content, "*") && o.names == ["em"] && o.attrs == [] && o.nested
    case IrcColor => exists fg, bg :: ColorCut(str, o, fg, bg)
    case IrcText =>
      && o.attrs == [] && o.nested
      && (|| (Between(str, o, "\U{0002}") && o.names == ["strong"])
          || (Between(str, o, "\U{001D}") && o.names == ["em"])
          || (Between(str, o, "\U{001F}") && o.names == ["u"])
          || (Between(str, o, "\U{0011}") && o.names == ["code"])
          || (Between(str, o, "\U{001E}") && o.names == ["span"]))
    case Link => exists target :: LinkCut(str, o, target)
    case Url => exists hidden :: UrlCut(str, o, hidden)
    case ChannelName =>
      && Around(str, o, "", "") && o.names == ["a"] && !o.nested
      && |o.content| > 2 && o.content[0] == '#' && o.attrs == [("href", "./%23" + o.content[1..])]
      && ('a' <= o.content[1] <= 'z' || 'A' <= o.content[1] <= 'Z')
      && (forall k :: 1 < k < |o.content| ==> IsNameChar(o.content[k]))
      && (o.before != "" ==> IsWhite(o.before[|o.before| - 1])) && (o.after != "" ==> !IsNameChar(o.after[0]))
  }

  /** A rule that declines leaves the text alone, or takes one backslash out. */
  ghost predicate Unescapes(str: string, text: string) {
    text == str || exists i :: 0 <= i < |str| && str[i] == '\\' && text == str[..i] + str[i + 1..]
  }

  ghost predicate Conserves(rule: Rule, str: string, o: Outcome) {
    match o
    case Declined(text) => Unescapes(str, text)
    case Cut(_, _, _, _, _, _) => IsCut(rule, str, o)
  }

  /** The mark that closes is the first one after the mark that opens. */
  lemma EnclosedCut(str: string, i: nat, j: nat, names: seq<string>, attrs: Attrs, nested: bool, mark: string)
    requires i <= j <= |str| && |mark| > 0
    ensures var o := Enclosed(str, str[..i], str[i..j], str[j..], names, attrs, nested, mark);
      if o.Cut? then
        && Around(str, o, str[i..j], mark) && Soonest(o.content, mark)
        && o.names == names && o.attrs == attrs && o.nested == nested
      else o.text == str
  {
    var after := str[j..];
    var end := IndexOf(after, mark);
    if end != -1 {
      assert after == after[..end] + mark + after[end + |mark|..];
      assert str == str[..i] + str[i..j] + after;
      FivePieces(str[..i], str[i..j], after[..end], mark, after[end + |mark|..]);
      FirstIsSoonest(after, end, mark);
    }
  }

  lemma FirstIsSoonest(after: string, end: nat, mark: string)
    requires mark != "" && end == IndexOf(after, mark)
    ensures Soonest(after[..end], mark)
  {
    var front := after[..end] + mark;
    assert front == after[..end + |mark|];
    forall i | 0 <= i < end ensures !OccursAt(front, mark, i) {
      assert !OccursAt(after, mark, i);
      if i + |mark| <= |front| { assert front[i..i + |mark|] == after[i..i + |mark|]; }
    }
  }

  lemma FivePieces(a: string, b: string, c: string, d: string, e: string)
    ensures a + b + (c + d + e) == a + b + c + d + e
  {
  }

  lemma TagCut(str: string, i: nat, j: nat, names: seq<string>, nested: bool)
    requires i < j <= |str| && j < |str| && !IsWhite(str[j])
    ensures var o := HandleTag(str, str[..i], str[i..j], str[j..], names, nested);
      if o.Cut? then
        && Between(str, o, str[i..j]) && Hugs(o.content, str[i..j])
        && o.names == names && o.attrs == [] && o.nested == nested
      else Unescapes(str, o.text)
  {
    hide Enclosed, Around, Soonest, Hugs, IsWhite;
    if str[..i] != "" && str[..i][i - 1] == '\\' {
      assert str[i - 1] == '\\' && str[..i][..i - 1] + str[i..j] + str[j..] == str[..i - 1] + str[i - 1 + 1..];
    } else {
      EnclosedCut(str, i, j, names, [], nested, str[i..j]);
      EnclosedHugs(str, i, j, names, nested, str[i..j]);
    }
  }

  lemma EnclosedHugs(str: string, i: nat, j: nat, names: seq<string>, nested: bool, mark: string)
    requires i <= j < |str| && mark != "" && !IsWhite(str[j])
    ensures var o := Enclosed(str, str[..i], str[i..j], str[j..], names, [], nested, mark);
      o.Cut? ==> Hugs(o.content, mark)
  {
    var after := str[j..];
    var end := IndexOf(after, mark);
    if end != -1 {
      assert after[..end] + mark == after[..end + |mark|];
      assert (after[..end] + mark)[0] == after[0] == str[j];
    }
  }

  lemma MarkAt(str: string, i: nat, mark: string)
    requires StartsAt(str, i, mark)
    ensures str[i..i + |mark|] == mark
  {
  }

  /** The rules with marks of their own. */
  lemma MarkCut(rule: Rule, str: string, i: nat)
    requires rule in {Code, EmStrong, Strong, Em} && i <= |str| && MatchEnd(rule, str, i) > i
    ensures Conserves(rule, str, Handle(rule, str, i))
  {
    hide HandleTag, Between, Unescapes, Hugs;
    var j := MatchEnd(rule, str, i);
    match rule
    case Code => MarkAt(str, i, "`"); TagCut(str, i, j, ["code"], false);
    case EmStrong => MarkAt(str, i, "***"); TagCut(str, i, j, ["em", "strong"], true);
    case Strong => MarkAt(str, i, "**"); TagCut(str, i, j, ["strong"], true);
    case Em => MarkAt(str, i, "*"); TagCut(str, i, j, ["em"], true);
  }

  lemma TextCut(str: string, i: nat)
    requires i <= |str| && MatchEnd(IrcText, str, i) > i
    ensures Conserves(IrcText, str, Handle(IrcText, str, i))
  {
    hide Enclosed, Around, Soonest;
    assert str[i..i + 1] == [str[i]];
    EnclosedCut(str, i, i + 1, [IrcName(str[i])], [], true, str[i..i + 1]);
    assert Unescapes(str, str);
  }

  /** The code of a colour and its class. */
  lemma ColorParts(str: string, i: nat) returns (fg: string, bg: string)
    requires i <= |str| && MatchEnd(IrcColor, str, i) > i
    ensures var captured := str[i..MatchEnd(IrcColor, str, i)];
      && AreDigits(fg) && (bg == "" || AreDigits(bg)) && captured == ColorCode(fg, bg)
      && captured != "" && ColorClass(captured) == ClassOf(fg, bg)
  {
    var j := MatchEnd(IrcColor, str, i);
    var f := TwoDigits(str, i + 1);
    fg := str[i + 1..f];
    bg := if j > f then str[f + 1..j] else "";
    TwoDigitsAre(str, i + 1);
    if StartsAt(str, f, ",") { TwoDigitsAre(str, f + 1); }
    MarkAt(str, i, [COLOR]);
    if j > f { MarkAt(str, f, ","); }
    hide TwoDigits, MatchEnd, AreDigits, ClassOf, ColorClass, StartsAt;
    CodeOfParts(str, i, f, j);
    ClassOfCode(fg, bg);
  }

  lemma CodeOfParts(str: string, i: nat, f: nat, j: nat)
    requires i + 1 <= f <= j <= |str| && str[i] == COLOR && (j > f ==> str[f] == ',' && j > f + 1)
    ensures str[i..j] == ColorCode(str[i + 1..f], if j > f then str[f + 1..j] else "")
  {
    if j > f {
      assert str[i..j] == [str[i]] + str[i + 1..f] + ([str[f]] + str[f + 1..j]);
    } else {
      assert str[i..j] == [str[i]] + str[i + 1..f] + "";
    }
  }

  lemma TwoDigitsAre(s: string, i: nat)
    requires i <= |s|
    ensures TwoDigits(s, i) > i ==> AreDigits(s[i..TwoDigits(s, i)])
  {
    forall k | i <= k < TwoDigits(s, i) ensures '0' <= s[k] <= '9' { assert InClass(s[k], Digits); }
  }

  /** The first number of a code ends where it stands. */
  lemma ClassOfCode(fg: string, bg: string)
    requires AreDigits(fg) && (bg == "" || AreDigits(bg))
    ensures ColorClass(ColorCode(fg, bg)) == ClassOf(fg, bg)
  {
    var captured := ColorCode(fg, bg);
    FirstNumber(fg, if bg == "" then "" else "," + bg);
    hide TwoDigits;
    assert captured[1..1 + |fg|] == fg;
    if bg != "" {
      var rest := "," + bg;
      assert captured == "\U{0003}" + fg + rest && rest[0..1] == "," && rest[1..] == bg;
      assert captured[1 + |fg|..] == rest && captured[1 + |fg|..2 + |fg|] == rest[0..1];
      assert captured[2 + |fg|..] == rest[1..];
    } else {
      assert |captured| == 1 + |fg|;
    }
  }

  lemma FirstNumber(fg: string, rest: string)
    requires AreDigits(fg) && (rest == "" || rest[0] == ',')
    ensures TwoDigits("\U{0003}" + fg + rest, 1) == 1 + |fg|
  {
    var s := "\U{0003}" + fg + rest;
    var stop := if 3 <= |s| then 3 else |s|;
    assert forall k :: 1 <= k < 1 + |fg| ==> s[k] == fg[k - 1];
    if |fg| == 1 && rest != "" { assert s[2] == ','; }
    assert RunEnd(s, 1 + |fg|, stop, Digits) == 1 + |fg|;
    if |fg| == 2 { assert RunEnd(s, 2, stop, Digits) == 3; }
  }

  lemma ColorIsCut(str: string, i: nat)
    requires i <= |str| && MatchEnd(IrcColor, str, i) > i
    ensures Conserves(IrcColor, str, Handle(IrcColor, str, i))
  {
    var fg, bg := ColorParts(str, i);
    hide MatchEnd, Enclosed, Around, Soonest, ColorClass, ClassOf, ColorCode, AreDigits;
    var j := MatchEnd(IrcColor, str, i);
    EnclosedCut(str, i, j, ["span"], [("class", ColorClass(str[i..j]))], true, [COLOR]);
    var o := Handle(IrcColor, str, i);
    assert Unescapes(str, str);
    if o.Cut? { assert ColorCut(str, o, fg, bg); }
  }

  lemma LinkIsCut(str: string, i: nat)
    requires i <= |str| && MatchEnd(Link, str, i) > i
    ensures Conserves(Link, str, Handle(Link, str, i))
  {
    var target := LinkParts(str, i);
    hide LinkCut;
    assert LinkCut(str, Handle(Link, str, i), target);
  }

  lemma LinkParts(str: string, i: nat) returns (target: string)
    requires i <= |str| && MatchEnd(Link, str, i) > i
    ensures Handle(Link, str, i).Cut? && LinkCut(str, Handle(Link, str, i), target)
  {
    var j, text := MatchEnd(Link, str, i), RunEnd(str, i + 1, |str|, NonBracket);
    assert j == RunEnd(str, text + 2, |str|, NonParen) + 1;
    LinkHandled(str, i);
    hide MatchEnd, Handle, RunEnd, Escape, HasScheme, Around;
    target := str[text + 2..j - 1];
    var o := Handle(Link, str, i);
    MarkAt(str, i, "[");
    CloseOfLink(str, text, j);
    AroundSlices(str, o, "[", "](" + target + ")", i, i + 1, text, j);
    forall k | 0 <= k < |o.content| ensures o.content[k] != ']' { assert InClass(str[i + 1 + k], NonBracket); }
    forall k | 0 <= k < |target| ensures target[k] != ')' { assert InClass(str[text + 2 + k], NonParen); }
  }

  lemma CloseOfLink(str: string, text: nat, j: nat)
    requires text + 2 < j <= |str| && StartsAt(str, text, "](") && StartsAt(str, j - 1, ")")
    ensures str[text..j] == "](" + str[text + 2..j - 1] + ")"
  {
    MarkAt(str, text, "](");
    MarkAt(str, j - 1, ")");
    assert str[text..j] == str[text..text + 2] + str[text + 2..j - 1] + str[j - 1..j];
  }

  lemma AroundSlices(str: string, o: Outcome, open: string, close: string, a: nat, b: nat, c: nat, d: nat)
    requires o.Cut? && a <= b <= c <= d <= |str|
    requires o.before == str[..a] && open == str[a..b] && o.content == str[b..c] && close == str[c..d]
    requires o.after == str[d..]
    ensures Around(str, o, open, close)
  {
    Slices(str, a, b, c, d);
  }

  lemma Slices(str: string, a: nat, b: nat, c: nat, d: nat)
    requires a <= b <= c <= d <= |str|
    ensures str == str[..a] + str[a..b] + str[b..c] + str[c..d] + str[d..]
  {
  }

  lemma LinkHandled(str: string, i: nat)
    requires i <= |str| && MatchEnd(Link, str, i) > i
    ensures var j, text := MatchEnd(Link, str, i), RunEnd(str, i + 1, |str|, NonBracket);
      && text + 2 < j && StartsAt(str, i, "[") && StartsAt(str, text, "](") && StartsAt(str, j - 1, ")") && i + 1 < text
      && var target := str[text + 2..j - 1];
      Handle(Link, str, i) == Cut(str[..i], ["a"],
        [("href", Escape(target))] + if HasScheme(target) then [("target", "_blank")] else [],
        str[i + 1..text], false, str[j..])
  {
    hide RunEnd, Escape, HasScheme;
  }

  lemma UrlIsCut(str: string, i: nat)
    requires i <= |str| && MatchEnd(Url, str, i) > i
    ensures Conserves(Url, str, Handle(Url, str, i))
  {
    UrlMatch(str, i);
    hide MatchEnd, UrlCut, HandleUrl, LinkOf, HasUrlScheme, UrlSpot;
    var hidden := UrlFound(str, i, MatchEnd(Url, str, i));
    assert UrlCut(str, Handle(Url, str, i), hidden);
  }

  lemma UrlFound(str: string, i: nat, j: nat) returns (hidden: string)
    requires i + 1 < j <= |str| && HasUrlScheme(LinkOf(str[i..j])) && UrlSpot(str, i, j)
    ensures HandleUrl(str[..i], str[i..j], str[j..]).Cut?
    ensures UrlCut(str, HandleUrl(str[..i], str[i..j], str[j..]), hidden)
  {
    hide LinkOf, BareLink, Escape, HasUrlScheme, HandleUrl, UrlCut, IsWhite, IsNameChar;
    var link := LinkOf(str[i..j]);
    HiddenPart(link);
    UrlHandled(str, i, j);
    var h, k := i + |link| - |BareLink(link)|, i + |link|;
    hidden := str[i..h];
    UrlParts(str, HandleUrl(str[..i], str[i..j], str[j..]), link, i, h, k);
  }

  /** No word in front, and no white space inside. */
  ghost predicate UrlSpot(str: string, i: nat, j: nat)
    requires i <= j <= |str|
  {
    && (forall k :: i <= k < j ==> !IsWhite(str[k]))
    && (i > 0 ==> !IsNameChar(str[i - 1]) || str[i - 1] in {'.', '-'})
  }

  lemma UrlParts(str: string, o: Outcome, link: string, i: nat, h: nat, k: nat)
    requires i <= h <= k <= |str| && link == str[i..k] && UrlSpot(str, i, k)
    requires o == Cut(str[..i], ["a"], [("href", Escape(link)), ("target", "_blank")], str[h..k], false, str[k..])
    requires str[i..h] in {"https://", "https:", "mailto://", "mailto:", ""} && (str[i..h] == "" ==> "http:" <= link)
    ensures UrlCut(str, o, str[i..h])
  {
    hide Around, Escape, IsWhite, IsNameChar;
    AroundSlices(str, o, str[i..h], "", i, h, k, k);
    assert o.before != "" ==> o.before[|o.before| - 1] == str[i - 1];
    assert link == str[i..h] + str[h..k];
    if str[i..h] == "" { assert link == o.content; }
  }

  lemma UrlHandled(str: string, i: nat, j: nat)
    requires i + 1 < j <= |str|
    ensures var link := LinkOf(str[i..j]);
      var h, k := i + |link| - |BareLink(link)|, i + |link|;
      && i <= h <= k <= j && link == str[i..k] && link[..h - i] == str[i..h] && str[k..k] == ""
      && BareLink(link) == str[h..k]
      && HandleUrl(str[..i], str[i..j], str[j..]) ==
        Cut(str[..i], ["a"], [("href", Escape(link)), ("target", "_blank")], str[h..k], false, str[k..])
  {
    hide LinkOf, BareLink, Escape;
    var link := LinkOf(str[i..j]);
    LinkSlices(str, i, j, i + |link| - |BareLink(link)|, i + |link|);
  }

  lemma LinkSlices(str: string, i: nat, j: nat, h: nat, k: nat)
    requires i <= h <= k <= j <= |str|
    ensures var link := str[i..j][..k - i];
      && link == str[i..k] && link[..h - i] == str[i..h] && link[h - i..] == str[h..k]
      && str[i..j][k - i..] + str[j..] == str[k..] && str[k..k] == ""
  {
  }

  predicate HasUrlScheme(s: string) { "https:" <= s || "http:" <= s || "mailto:" <= s }

  lemma UrlMatch(str: string, i: nat)
    requires i <= |str| && MatchEnd(Url, str, i) > i
    ensures var captured := str[i..MatchEnd(Url, str, i)];
      |captured| > 5 && HasUrlScheme(captured) && HasUrlScheme(LinkOf(captured))
    ensures UrlSpot(str, i, MatchEnd(Url, str, i))
  {
    var j, scheme := MatchEnd(Url, str, i), SchemeEnd(str, i);
    assert scheme < j && str[i..scheme] == str[i..j][..scheme - i];
    assert str[i..scheme] in {"https:", "http:", "mailto:"};
    forall k | i <= k < j ensures !IsWhite(str[k]) {
      if k < scheme { assert str[k] == str[i..scheme][k - i]; } else { assert InClass(str[k], NonSpace); }
    }
  }

  lemma HiddenPart(link: string)
    requires HasUrlScheme(link)
    ensures var hidden := link[..|link| - |BareLink(link)|];
      hidden in {"https://", "https:", "mailto://", "mailto:", ""} && (hidden == "" ==> "http:" <= link)
  {
    var hidden := link[..|link| - |BareLink(link)|];
    if "https:" <= link {
      SchemeOf(link, "https:");
      assert "https:" + "//" == "https://";
    } else if "mailto:" <= link {
      SchemeOf(link, "mailto:");
      assert "mailto:" + "//" == "mailto://";
    } else {
      StartsAtFront(link, "https:");
      StartsAtFront(link, "mailto:");
      assert BareLink(link) == link[0..] && hidden == "";
    }
  }

  lemma StartsAtFront(s: string, pat: string)
    ensures StartsAt(s, 0, pat) <==> pat <= s
  {
    if |pat| <= |s| { assert s[0..|pat|] == s[..|pat|]; }
  }

  lemma SchemeOf(link: string, scheme: string)
    requires scheme in {"https:", "mailto:"} && scheme <= link
    ensures link[..|link| - |BareLink(link)|] in {scheme, scheme + "//"}
  {
    StartsAtFront(link, scheme);
    StartsAtFront(link, "https:");
    assert scheme[0] == link[0];
    if StartsAt(link, |scheme|, "//") {
      assert link[..|scheme| + 2] == link[..|scheme|] + link[|scheme|..|scheme| + 2];
    }
  }

  lemma ChannelIsCut(str: string, i: nat)
    requires i <= |str| && MatchEnd(ChannelName, str, i) > i
    ensures Conserves(ChannelName, str, Handle(ChannelName, str, i))
  {
    var j := MatchEnd(ChannelName, str, i);
    var hash := if IsSpace(str[i]) then i + 1 else i;
    ChannelMatch(str, i, hash);
    assert hash > 0 ==> IsWhite(str[hash - 1]);
    hide MatchEnd, IsSpace, Around, IsWhite, IsNameChar, Handle;
    ChannelCutAt(str, i, hash, j);
    var o := Handle(ChannelName, str, i);
    AroundSlices(str, o, "", "", hash, hash, j, j);
    assert o.content[1..] == str[hash + 1..j];
  }

  lemma ChannelCutAt(str: string, i: nat, hash: nat, j: nat)
    requires i <= hash <= i + 1 && hash + 2 < j <= |str| && j == MatchEnd(ChannelName, str, i)
    requires (hash == i + 1 <==> IsSpace(str[i])) && str[hash] == '#'
    requires forall k :: hash < k < j ==> IsChannel(str[k])
    ensures Handle(ChannelName, str, i) ==
      Cut(str[..hash], ["a"], [("href", "./%23" + str[hash + 1..j])], str[hash..j], false, str[j..])
  {
    hide MatchEnd, IsSpace, IsChannel;
    var captured := str[i..j];
    assert captured[0] == str[i];
    var name := if hash > i then captured[1..] else captured;
    assert name == str[hash..j] && captured[..|captured| - |name|] == str[i..hash];
    EncodedName(name);
    hide EncodeChannel;
    assert str[..i] + str[i..hash] == str[..hash] && name[1..] == str[hash + 1..j];
    HrefOfChannel(name[1..]);
  }

  lemma HrefOfChannel(rest: string)
    ensures "./" + ("%23" + rest) == "./%23" + rest
  {
  }

  lemma ChannelMatch(str: string, i: nat, hash: nat)
    requires i < |str| && MatchEnd(ChannelName, str, i) > i && hash == if IsSpace(str[i]) then i + 1 else i
    ensures hash + 2 < MatchEnd(ChannelName, str, i) && str[hash] == '#' && (i > 0 ==> hash == i + 1)
    ensures 'a' <= str[hash + 1] <= 'z' || 'A' <= str[hash + 1] <= 'Z'
    ensures forall k :: hash < k < MatchEnd(ChannelName, str, i) ==> IsChannel(str[k]) && IsNameChar(str[k])
    ensures var j := MatchEnd(ChannelName, str, i); j < |str| ==> !IsNameChar(str[j])
  {
    var j := MatchEnd(ChannelName, str, i);
    MarkAt(str, hash, "#");
    assert str[hash..hash + 1][0] == str[hash];
    assert IsLetter(str[hash + 1]) && j == RunEnd(str, hash + 2, |str|, Channel);
    ChannelStops(str, hash + 2);
    forall k | hash < k < j ensures IsChannel(str[k]) {
      if k > hash + 1 { assert InClass(str[k], Channel); }
    }
  }

  lemma {:induction false} ChannelStops(s: string, i: nat)
    requires i <= |s|
    ensures var j := RunEnd(s, i, |s|, Channel); j < |s| ==> !IsNameChar(s[j])
    decreases |s| - i
  {
    if i < |s| && InClass(s[i], Channel) { ChannelStops(s, i + 1); }
  }

  lemma EncodedName(name: string)
    requires |name| > 0 && name[0] == '#' && forall k :: 0 < k < |name| ==> IsChannel(name[k])
    ensures EncodeChannel(name) == "%23" + name[1..]
  {
    NothingToEncode(name[1..]);
  }

  lemma {:induction false} NothingToEncode(s: string)
    requires forall k :: 0 <= k < |s| ==> IsChannel(s[k])
    ensures EncodeChannel(s) == s
  {
    if s != "" {
      assert IsChannel(s[0]) && s[0] != '#';
      NothingToEncode(s[1..]);
      assert s == [s[0]] + s[1..];
    }
  }

  /** The conservation law of one rule, for every text: a cut is exactly one piece of
      that rule's markup around its content, and otherwise the text stays, but for
      one backslash in front of a mark. */
  lemma ApplyConserves(rule: Rule, str: string)
    ensures Conserves(rule, str, Apply(rule, str))
  {
    hide Handle, MatchEnd, IsCut, Conserves;
    var i := FirstMatch(rule, str, 0);
    if i < |str| {
      match rule
      case IrcColor => ColorIsCut(str, i);
      case IrcText => TextCut(str, i);
      case Link => LinkIsCut(str, i);
      case Url => UrlIsCut(str, i);
      case ChannelName => ChannelIsCut(str, i);
      case _ => MarkCut(rule, str, i);
    } else {
      Untouched(rule, str);
    }
  }

  lemma Untouched(rule: Rule, str: string)
    ensures Conserves(rule, str, Declined(str))
  {
  }

  // ---------------------------------------------------------------------
  // Only marks are lost
  // ---------------------------------------------------------------------

  /** The characters that marks are made of. */
  predicate MarkChar(c: char) {
    c == '*' || c == '`' || c == '\U{0002}' || c == '\U{001D}' || c == '\U{001E}' || c == '\U{001F}' || c == '\U{0011}'
  }

  /** The text without them. */
  function Erase(s: string): string {
    if s == "" then "" else (if MarkChar(s[0]) then "" else [s[0]]) + Erase(s[1..])
  }

  /** No link, no URL, no colour code and no backslash. */
  ghost predicate Ordinary(s: string) {
    && (forall c :: c in s ==> c != '\\' && c != '\U{0003}')
    && forall i :: 0 <= i <= |s| ==> !Special(s[i..])
  }

  predicate Special(s: string) { "](" <= s || "https:" <= s || "http:" <= s || "mailto:" <= s }

  lemma {:induction false} EraseConcat(a: string, b: string)
    ensures Erase(a + b) == Erase(a) + Erase(b)
  {
    if a == "" {
      assert a + b == b;
    } else {
      EraseConcat(a[1..], b);
      assert (a + b)[1..] == a[1..] + b && (a + b)[0] == a[0];
      var here := if MarkChar(a[0]) then "" else [a[0]];
      assert here + (Erase(a[1..]) + Erase(b)) == here + Erase(a[1..]) + Erase(b);
    }
  }

  lemma SpecialGrows(a: string, b: string)
    requires Special(a)
    ensures Special(a + b)
  {
    var t := a + b;
    assert forall n :: 0 <= n <= |a| ==> t[..n] == a[..n];
    if "](" <= a { assert t[..2] == a[..2]; }
    else if "https:" <= a { assert t[..6] == a[..6]; }
    else if "http:" <= a { assert t[..5] == a[..5]; }
    else { assert t[..7] == a[..7]; }
  }

  /** Parts of an ordinary text are ordinary. */
  lemma OrdinaryPart(a: string, b: string, c: string)
    requires Ordinary(a + b + c)
    ensures Ordinary(b)
  {
    hide Special;
    var s := a + b + c;
    forall x | x in b ensures x != '\\' && x != '\U{0003}' { assert x in s; }
    forall i | 0 <= i <= |b| ensures !Special(b[i..]) {
      assert s[|a| + i..] == b[i..] + c;
      if Special(b[i..]) { SpecialGrows(b[i..], c); }
    }
  }

  lemma OrdinaryThree(str: string, o: Outcome, open: string, close: string)
    requires o.Cut? && Around(str, o, open, close) && Ordinary(str)
    ensures Ordinary(o.before) && Ordinary(o.content) && Ordinary(o.after)
  {
    hide Ordinary;
    FivePieces(o.before, open, o.content, close, o.after);
    assert str == "" + o.before + (open + o.content + close + o.after);
    assert str == (o.before + open) + o.content + (close + o.after);
    assert str == (o.before + open + o.content + close) + o.after + "";
    OrdinaryPart("", o.before, open + o.content + close + o.after);
    OrdinaryPart(o.before + open, o.content, close + o.after);
    OrdinaryPart(o.before + open + o.content + close, o.after, "");
  }

  lemma EraseThree(str: string, o: Outcome, open: string, close: string)
    requires o.Cut? && Around(str, o, open, close) && Erase(open) == "" && Erase(close) == ""
    ensures Erase(str) == Erase(o.before) + Erase(o.content) + Erase(o.after)
  {
    hide Erase;
    EraseConcat(o.before + open + o.content + close, o.after);
    EraseConcat(o.before + open + o.content, close);
    EraseConcat(o.before + open, o.content);
    EraseConcat(o.before, open);
    assert Erase(o.before) + "" == Erase(o.before);
    assert Erase(o.before) + Erase(o.content) + "" == Erase(o.before) + Erase(o.content);
  }

  lemma MarksErase()
    ensures Erase("`") == "" && Erase("***") == "" && Erase("**") == "" && Erase("*") == "" && Erase("") == ""
    ensures Erase("\U{0002}") == "" && Erase("\U{001D}") == "" && Erase("\U{001F}") == "" && Erase("\U{0011}") == ""
    ensures Erase("\U{001E}") == ""
  {
    assert "***"[1..] == "**" && "**"[1..] == "*" && "*"[1..] == "";
  }

  lemma SpecialInside(a: string, b: string, c: string)
    requires Special(b)
    ensures !Ordinary(a + b + c)
  {
    hide Special;
    var s := a + b + c;
    assert s[|a|..] == b + c;
    SpecialGrows(b, c);
  }

  /** An ordinary text has no link, URL or colour to cut. */
  lemma NotOrdinary(rule: Rule, str: string, o: Outcome)
    requires rule in {IrcColor, Link, Url} && o.Cut? && IsCut(rule, str, o)
    ensures !Ordinary(str)
  {
    hide IsCut, Ordinary;
    match rule
    case IrcColor => NoColor(str, o);
    case Link => NoLink(str, o);
    case Url => NoUrl(str, o);
  }

  lemma NoLink(str: string, o: Outcome)
    requires o.Cut? && IsCut(Link, str, o)
    ensures !Ordinary(str)
  {
    hide Special, Ordinary, Escape, HasScheme;
    var target :| LinkCut(str, o, target);
    BracketsAreSpecial();
    assert str == (o.before + "[" + o.content) + "](" + (target + ")" + o.after);
    SpecialInside(o.before + "[" + o.content, "](", target + ")" + o.after);
  }

  lemma NoUrl(str: string, o: Outcome)
    requires o.Cut? && IsCut(Url, str, o)
    ensures !Ordinary(str)
  {
    hide Special, Ordinary, Escape;
    var hidden :| UrlCut(str, o, hidden);
    SchemesAreSpecial(hidden, o.content);
    assert str == o.before + (hidden + o.content) + o.after;
    SpecialInside(o.before, hidden + o.content, o.after);
  }

  lemma NoColor(str: string, o: Outcome)
    requires o.Cut? && IsCut(IrcColor, str, o)
    ensures !Ordinary(str)
  {
    var fg, bg :| ColorCut(str, o, fg, bg);
    assert str[|o.before|] == '\U{0003}' && str[|o.before|] in str;
  }

  lemma BracketsAreSpecial()
    ensures Special("](")
  {
  }

  lemma SchemesAreSpecial(hidden: string, content: string)
    requires hidden in {"https://", "https:", "mailto://", "mailto:", ""} && (hidden == "" ==> "http:" <= content)
    ensures Special(hidden + content)
  {
    if hidden == "" {
      assert hidden + content == content;
    } else {
      assert "https:" <= "https://" && "mailto:" <= "mailto://";
      SpecialGrows(hidden, content);
    }
  }

  lemma CutKeepsInk(rule: Rule, str: string, o: Outcome)
    requires o.Cut? && IsCut(rule, str, o) && Ordinary(str)
    ensures Ordinary(o.before) && Ordinary(o.content) && Ordinary(o.after)
    ensures Erase(str) == Erase(o.before) + Erase(o.content) + Erase(o.after)
  {
    if rule in {IrcColor, Link, Url} {
      NotOrdinary(rule, str, o);
    } else {
      var open, close := MarksOf(rule, str, o);
      OrdinaryThree(str, o, open, close);
      EraseThree(str, o, open, close);
    }
  }

  lemma MarksOf(rule: Rule, str: string, o: Outcome) returns (open: string, close: string)
    requires o.Cut? && IsCut(rule, str, o) && rule !in {IrcColor, Link, Url}
    ensures Around(str, o, open, close) && Erase(open) == "" && Erase(close) == ""
  {
    MarksErase();
    hide Around, Erase, Soonest;
    match rule
    case Code => open, close := "`", "`";
    case EmStrong => open, close := "***", "***";
    case Strong => open, close := "**", "**";
    case Em => open, close := "*", "*";
    case IrcText =>
      if Around(str, o, "\U{0002}", "\U{0002}") { open, close := "\U{0002}", "\U{0002}"; }
      else if Around(str, o, "\U{001D}", "\U{001D}") { open, close := "\U{001D}", "\U{001D}"; }
      else if Around(str, o, "\U{001F}", "\U{001F}") { open, close := "\U{001F}", "\U{001F}"; }
      else if Around(str, o, "\U{0011}", "\U{0011}") { open, close := "\U{0011}", "\U{0011}"; }
      else { open, close := "\U{001E}", "\U{001E}"; }
    case ChannelName => open, close := "", "";
  }

  /** Nothing but marks is lost: without its mark characters, the text of the tree is
      the message, for every message without a link, a URL, a colour code or a
      backslash (and without the "> " that makes it a quotation). */
  lemma {:induction false} OnlyMarksAreLost(str: string, nested: bool, top: bool)
    requires Ordinary(str)
    ensures Erase(LeafText(MakeTag(str, nested, top))) == Erase(if top && "> " <= str then str[2..] else str)
    decreases |str|, if nested then 1 else 0, 1, 0
  {
    hide Ordinary, Erase;
    if top && "> " <= str {
      assert str == str[..2] + str[2..] + "";
      OrdinaryPart(str[..2], str[2..], "");
      OnlyMarksAreLost(str[2..], nested, false);
    } else {
      RulesLoseMarks(str, nested, 0);
    }
  }

  lemma {:induction false} RulesLoseMarks(str: string, nested: bool, r: nat)
    requires r <= |RULES| && Ordinary(str)
    ensures Erase(LeafText(TryRules(str, nested, r))) == Erase(str)
    decreases |str|, if nested then 1 else 0, 0, |RULES| - r
  {
    hide Apply, Ordinary, Erase, IsCut;
    if !nested || r == |RULES| {
      assert AllLeafText([Leaf(str)]) == str + AllLeafText([]) == str + "" == str;
    } else {
      ApplyShrinks(RULES[r], str);
      ApplyConserves(RULES[r], str);
      match Apply(RULES[r], str)
      case Declined(text) =>
        NoBackslash(str, text);
        RulesLoseMarks(str, nested, r + 1);
      case Cut(before, names, attrs, content, inner, after) =>
        CutKeepsInk(RULES[r], str, Apply(RULES[r], str));
        PartLosesMarks(before, nested);
        OnlyMarksAreLost(content, inner, false);
        PartLosesMarks(after, nested);
        InkOfThree(if before != "" then [MakeTag(before, nested, false)] else [],
                   Tag(names, attrs, MakeTag(content, inner, false)),
                   if after != "" then [MakeTag(after, nested, false)] else []);
    }
  }

  lemma InkOfThree(a: seq<Node>, b: Node, c: seq<Node>)
    ensures Erase(LeafText(Group(a + [b] + c))) == Erase(AllLeafText(a)) + Erase(LeafText(b)) + Erase(AllLeafText(c))
  {
    hide Erase;
    LeavesOfThree(a, b, c);
    EraseConcat(AllLeafText(a) + LeafText(b), AllLeafText(c));
    EraseConcat(AllLeafText(a), LeafText(b));
  }

  lemma NoBackslash(str: string, text: string)
    requires Ordinary(str) && Unescapes(str, text)
    ensures text == str
  {
    assert forall i :: 0 <= i < |str| ==> str[i] in str;
  }

  lemma {:induction false} PartLosesMarks(part: string, nested: bool)
    requires Ordinary(part)
    ensures Erase(AllLeafText(if part != "" then [MakeTag(part, nested, false)] else [])) == Erase(part)
    decreases |part|, if nested then 1 else 0, 1, 1
  {
    hide Ordinary, Erase;
    if part != "" {
      OnlyMarksAreLost(part, nested, false);
      var node := MakeTag(part, nested, false);
      assert AllLeafText([node]) == LeafText(node) + "" == LeafText(node) by { assert [node][1..] == []; }
    }
  }
}
