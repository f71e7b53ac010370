/** The chat formatter: nine rules turn a message into a tree of tags, and the
    tree into HTML. Regular expressions are concrete scanners over ASCII text. */
module Markdown {
  import opened Text

  // ---------------------------------------------------------------------
  // Characters
  // ---------------------------------------------------------------------

  const COLOR := '\U{0003}'
  const BOLD := '\U{0002}'
  const ITALIC := '\U{001D}'
  const STRIKE := '\U{001E}'
  const UNDERLINE := '\U{001F}'
  const MONOSPACE := '\U{0011}'

  predicate IsSpace(c: char) { c == ' ' || '\t' <= c <= '\r' }
  predicate IsLetter(c: char) { 'a' <= c <= 'z' || 'A' <= c <= 'Z' }
  predicate IsWord(c: char) { IsLetter(c) || IsDigit(c) || c == '_' }
  predicate IsChannel(c: char) { IsWord(c) || c == '.' || c == '-' }

  datatype Class = Digits | NonSpace | NonBracket | NonParen | Channel

  predicate InClass(c: char, cls: Class) {
    match cls
    case Digits => IsDigit(c)
    case NonSpace => !IsSpace(c)
    case NonBracket => c != ']'
    case NonParen => c != ')'
    case Channel => IsChannel(c)
  }

  /** The end of the longest run of a class from `i`, no further than `stop`. */
  function RunEnd(s: string, i: nat, stop: nat, cls: Class): (j: nat)
    requires i <= stop <= |s|
    ensures i <= j <= stop && forall k :: i <= k < j ==> InClass(s[k], cls)
    decreases stop - i
  {
    if i < stop && InClass(s[i], cls) then RunEnd(s, i + 1, stop, cls) else i
  }

  predicate StartsAt(s: string, i: nat, pat: string) {
    i + |pat| <= |s| && s[i..i + |pat|] == pat
  }

  // ---------------------------------------------------------------------
  // The rules
  // ---------------------------------------------------------------------

  datatype Rule = Code | EmStrong | Strong | Em | IrcColor | IrcText | Link | Url | ChannelName

  const RULES := [Code, EmStrong, Strong, Em, IrcColor, IrcText, Link, Url, ChannelName]

  /** One to two digits from `i`. */
  function TwoDigits(s: string, i: nat): (j: nat)
    requires i <= |s|
    ensures i <= j <= |s|
  {
    RunEnd(s, i, if i + 2 <= |s| then i + 2 else |s|, Digits)
  }

  /** The end of the scheme of a link and its colon, or `i` if there is none. */
  function SchemeEnd(s: string, i: nat): (j: nat)
    requires i <= |s|
    ensures i <= j <= |s|
  {
    if StartsAt(s, i, "https:") then i + 6
    else if StartsAt(s, i, "http:") then i + 5
    else if StartsAt(s, i, "mailto:") then i + 7
    else i
  }

  /** The end of a rule's match at position `i`, or `i` if it does not match
      there. */
  function MatchEnd(rule: Rule, s: string, i: nat): (j: nat)
    requires i <= |s|
    ensures i <= j <= |s|
  {
    match rule
    case Code => if StartsAt(s, i, "`") && i + 1 < |s| && s[i + 1] != '`' && !IsSpace(s[i + 1]) then i + 1 else i
    case EmStrong => if StartsAt(s, i, "***") && i + 3 < |s| && !IsSpace(s[i + 3]) then i + 3 else i
    case Strong => if StartsAt(s, i, "**") && i + 2 < |s| && !IsSpace(s[i + 2]) then i + 2 else i
    case Em => if StartsAt(s, i, "*") && i + 1 < |s| && !IsSpace(s[i + 1]) then i + 1 else i
    case IrcColor =>
      if !StartsAt(s, i, [COLOR]) || TwoDigits(s, i + 1) == i + 1 then i
      else
        var fg := TwoDigits(s, i + 1);
        if StartsAt(s, fg, ",") && TwoDigits(s, fg + 1) > fg + 1 then TwoDigits(s, fg + 1) else fg
    case IrcText =>
      if i < |s| && (s[i] == BOLD || s[i] == ITALIC || s[i] == STRIKE || s[i] == UNDERLINE || s[i] == MONOSPACE)
      then i + 1 else i
    case Link =>
      if !StartsAt(s, i, "[") then i
      else
        var text := RunEnd(s, i + 1, |s|, NonBracket);
        if text == i + 1 || !StartsAt(s, text, "](") then i
        else
          var target := RunEnd(s, text + 2, |s|, NonParen);
          if target == text + 2 || !StartsAt(s, target, ")") then i else target + 1
    case Url =>
      var scheme := SchemeEnd(s, i);
      if scheme == i || (i > 0 && IsWord(s[i - 1])) then i
      else
        var end := RunEnd(s, scheme, |s|, NonSpace);
        if end == scheme then i else end
    case ChannelName =>
      var hash := if i < |s| && IsSpace(s[i]) then i + 1 else i;
      if (hash == i && i != 0) || !StartsAt(s, hash, "#") || hash + 1 == |s| || !IsLetter(s[hash + 1]) then i
      else
        var end := RunEnd(s, hash + 2, |s|, Channel);
        if end == hash + 2 then i else end
  }

  /** The first position from `i` on where a rule matches, or |s|. */
  function FirstMatch(rule: Rule, s: string, i: nat): (j: nat)
    requires i <= |s|
    ensures i <= j <= |s|
    ensures j < |s| ==> MatchEnd(rule, s, j) > j
    ensures forall k :: i <= k < j ==> MatchEnd(rule, s, k) == k
    decreases |s| - i
  {
    if i == |s| || MatchEnd(rule, s, i) > i then i else FirstMatch(rule, s, i + 1)
  }

  // ---------------------------------------------------------------------
  // The handlers
  // ---------------------------------------------------------------------

  type Attrs = seq<(string, string)>

  /** A handler declines, leaving a text for the later rules, or cuts the text
      in three. `nested` says whether rules apply inside the tag. */
  datatype Outcome =
    | Declined(text: string)
    | Cut(before: string, names: seq<string>, attrs: Attrs, content: string, nested: bool, after: string)

  function Escape(s: string): string {
    if s == "" then "" else EscapeChar(s[0]) + Escape(s[1..])
  }

  function EscapeChar(c: char): string {
    match c
    case '&' => "&amp;"
    case '<' => "&lt;"
    case '>' => "&gt;"
    case '\'' => "&apos;"
    case '"' => "&quot;"
    case _ => [c]
  }

  /** `str.substring` up to the next occurrence of the opening mark. */
  function Enclosed(str: string, before: string, captured: string, after: string, names: seq<string>, attrs: Attrs,
                    nested: bool, mark: string): Outcome
    requires |mark| > 0
  {
    var end := IndexOf(after, mark);
    if end == -1 then Declined(str)
    else Cut(before, names, attrs, after[..end], nested, after[end + |mark|..])
  }

  /** An escaped mark loses its backslash and is left alone. */
  function HandleTag(str: string, before: string, captured: string, after: string, names: seq<string>,
      nested: bool): Outcome
    requires |captured| > 0
  {
    if before != "" && before[|before| - 1] == '\\' then Declined(before[..|before| - 1] + captured + after)
    else Enclosed(str, before, captured, after, names, [], nested, captured)
  }

  function ColorClass(captured: string): string
    requires |captured| > 0
  {
    var end := TwoDigits(captured, 1);
    var digits := captured[1..end];
    var fg := if |digits| == 2 && digits[0] == '0' then digits[1..] else digits;
    var bg := if StartsAt(captured, end, ",") then captured[end + 1..] else "";
    (if bg != "" then "bg-" + bg + " " else "") + "text-" + fg
  }

  function IrcName(c: char): string {
    if c == BOLD then "strong" else if c == ITALIC then "em" else if c == UNDERLINE then "u"
    else if c == MONOSPACE then "code" else "span"
  }

  /** /^\w+:/ */
  predicate HasScheme(s: string) { exists j :: 0 < j < |s| && s[j] == ':' && forall i :: 0 <= i < j ==> IsWord(s[i]) }

  /** Punctuation after a link belongs to the text behind it. */
  function LinkOf(captured: string): (link: string)
    requires |captured| > 1
    ensures |link| == |captured| || |link| == |captured| - 1
    ensures link == captured[..|link|]
  {
    var last := captured[|captured| - 1];
    if last in {',', '.', ':', ';', '!', '"', '\'', ')'} then captured[..|captured| - 1] else captured
  }

  /** The link without https: or mailto: and two slashes. */
  function BareLink(link: string): (bare: string)
    ensures |bare| <= |link| && bare == link[|link| - |bare|..]
  {
    var scheme := if StartsAt(link, 0, "https:") then 6 else if StartsAt(link, 0, "mailto:") then 7 else 0;
    if scheme > 0 && StartsAt(link, scheme, "//") then link[scheme + 2..] else link[scheme..]
  }

  function HandleUrl(before: string, captured: string, after: string): Outcome
    requires |captured| > 1
  {
    var link := LinkOf(captured);
    Cut(before, ["a"], [("href", Escape(link)), ("target", "_blank")], BareLink(link), false,
        captured[|link|..] + after)
  }

  /** The white space before a channel name stays outside the link. */
  function HandleChannel(before: string, captured: string, after: string): Outcome
    requires |captured| > 1
  {
    var name := if IsSpace(captured[0]) then captured[1..] else captured;
    Cut(before + captured[..|captured| - |name|], ["a"], [("href", "./" + EncodeChannel(name))], name, false, after)
  }

  /** encodeURIComponent for channel names, whose other characters are unreserved. */
  function EncodeChannel(name: string): string {
    if name == "" then "" else (if name[0] == '#' then "%23" else [name[0]]) + EncodeChannel(name[1..])
  }

  function Handle(rule: Rule, str: string, i: nat): Outcome
    requires i <= |str| && MatchEnd(rule, str, i) > i
  {
    var j := MatchEnd(rule, str, i);
    var before, captured, after := str[..i], str[i..j], str[j..];
    match rule
    case Code => HandleTag(str, before, captured, after, ["code"], false)
    case EmStrong => HandleTag(str, before, captured, after, ["em", "strong"], true)
    case Strong => HandleTag(str, before, captured, after, ["strong"], true)
    case Em => HandleTag(str, before, captured, after, ["em"], true)
    case IrcColor => Enclosed(str, before, captured, after, ["span"], [("class", ColorClass(captured))], true, [COLOR])
    case IrcText => Enclosed(str, before, captured, after, [IrcName(captured[0])], [], true, captured)
    case Link =>
      var text := RunEnd(str, i + 1, |str|, NonBracket);
      var target := str[text + 2..j - 1];
      Cut(before, ["a"], [("href", Escape(target))] + if HasScheme(target) then [("target", "_blank")] else [],
          str[i + 1..text], false, after)
    case Url => HandleUrl(before, captured, after)
    case ChannelName => HandleChannel(before, captured, after)
  }

  /** What a rule does to a text: nothing when it does not match. */
  function Apply(rule: Rule, str: string): Outcome {
    var i := FirstMatch(rule, str, 0);
    if i == |str| then Declined(str) else Handle(rule, str, i)
  }

  // ---------------------------------------------------------------------
  // The tree
  // ---------------------------------------------------------------------

  datatype Node =
    | Leaf(text: string)                                        // escaped when rendered
    | Tag(names: seq<string>, attrs: Attrs, child: Node)
    | Group(children: seq<Node>)

  /** The three parts of a cut are shorter than the text, or the middle one is as
      long but gets no rules. */
  ghost predicate Shrinks(str: string, o: Outcome) {
    match o
    case Declined(text) => |text| <= |str|
    case Cut(before, _, _, content, nested, after) =>
      |before| < |str| && |after| < |str| && |content| <= |str| && (nested ==> |content| < |str|)
  }

  lemma ApplyShrinks(rule: Rule, str: string)
    ensures Shrinks(str, Apply(rule, str))
  {
    hide StartsAt, RunEnd, SchemeEnd, Escape, HasScheme, EncodeChannel, ColorClass;
    var i := FirstMatch(rule, str, 0);
    if i < |str| {
      HandleShrinks(rule, str, i);
    }
  }

  lemma EnclosedShrinks(str: string, i: nat, j: nat, names: seq<string>, attrs: Attrs, nested: bool, mark: string)
    requires i < j <= |str| && |mark| > 0
    ensures Shrinks(str, Enclosed(str, str[..i], str[i..j], str[j..], names, attrs, nested, mark))
    ensures Shrinks(str, HandleTag(str, str[..i], str[i..j], str[j..], names, nested))
  {
    var end := IndexOf(str[j..], mark);
    var end' := IndexOf(str[j..], str[i..j]);
  }

  lemma LinksShrink(rule: Rule, str: string, i: nat)
    requires rule in {Link, Url, ChannelName} && i <= |str| && MatchEnd(rule, str, i) > i
    ensures Shrinks(str, Handle(rule, str, i))
  {
    hide RunEnd, Escape, HasScheme, EncodeChannel, LinkOf, BareLink, StartsAt, TwoDigits;
  }

  lemma HandleShrinks(rule: Rule, str: string, i: nat)
    requires i <= |str| && MatchEnd(rule, str, i) > i
    ensures Shrinks(str, Handle(rule, str, i))
  {
    hide RunEnd, Escape, HasScheme, EncodeChannel, ColorClass, Enclosed, HandleTag, Shrinks, MatchEnd;
    var j := MatchEnd(rule, str, i);
    match rule
    case Code => EnclosedShrinks(str, i, j, ["code"], [], false, "`");
    case EmStrong => EnclosedShrinks(str, i, j, ["em", "strong"], [], true, "*");
    case Strong => EnclosedShrinks(str, i, j, ["strong"], [], true, "*");
    case Em => EnclosedShrinks(str, i, j, ["em"], [], true, "*");
    case IrcColor => EnclosedShrinks(str, i, j, ["span"], [("class", ColorClass(str[i..j]))], true, [COLOR]);
    case IrcText => EnclosedShrinks(str, i, j, [IrcName(str[i..j][0])], [], true, str[i..j]);
    case _ => LinksShrink(rule, str, i);
  }

  /** `_makeTag`, with the rules from number `r` on still to try. */
  function MakeTag(str: string, nested: bool, top: bool): Node
    decreases |str|, if nested then 1 else 0, 1, 0
  {
    if top && "> " <= str then Tag(["blockquote"], [], MakeTag(str[2..], nested, false))
    else TryRules(str, nested, 0)
  }

  function TryRules(str: string, nested: bool, r: nat): Node
    requires r <= |RULES|
    decreases |str|, if nested then 1 else 0, 0, |RULES| - r
  {
    if !nested || r == |RULES| then Group([Leaf(str)])
    else
      ApplyShrinks(RULES[r], str);
      match Apply(RULES[r], str)
      case Declined(text) => TryRules(text, nested, r + 1)
      case Cut(before, names, attrs, content, inner, after) =>
        Group((if before != "" then [MakeTag(before, nested, false)] else [])
              + [Tag(names, attrs, MakeTag(content, inner, false))]
              + (if after != "" then [MakeTag(after, nested, false)] else []))
  }

  class I18N {
    /** The loop over the rules rewrites `str` and collects the children. */
    method MakeTagLoop(text: string, nested: bool, top: bool) returns (node: Node)
      ensures node == MakeTag(text, nested, top)
      decreases |text|, if nested then 1 else 0
    {
      hide Apply;
      if top && "> " <= text {
        var child := MakeTagLoop(text[2..], nested, false);
        return Tag(["blockquote"], [], child);
      }
      var str := text;
      var children: seq<Node> := [];
      var rules := if nested then RULES else [];
      for r := 0 to |rules|
        invariant |str| <= |text| && children == []
        invariant TryRules(str, nested, r) == MakeTag(text, nested, top)
      {
        ApplyShrinks(rules[r], str);
        match Apply(rules[r], str) {
          case Declined(rest) => str := rest;
          case Cut(before, names, attrs, content, inner, after) =>
            if before != "" {
              var first := MakeTagLoop(before, nested, false);
              children := children + [first];
            }
            var middle := MakeTagLoop(content, inner, false);
            children := children + [Tag(names, attrs, middle)];
            if after != "" {
              var last := MakeTagLoop(after, nested, false);
              children := children + [last];
            }
            return Group(children);
        }
      }
      node := Group([Leaf(str)]);
    }
  }

  // ---------------------------------------------------------------------
  // HTML
  // ---------------------------------------------------------------------

  function OpenTags(names: seq<string>): string {
    if names == [] then "" else "<" + names[0] + ">" + OpenTags(names[1..])
  }

  function CloseTags(names: seq<string>): string {
    if names == [] then "" else CloseTags(names[1..]) + "</" + names[0] + ">"
  }

  function AttrText(attrs: Attrs): string {
    if attrs == [] then "" else " " + attrs[0].0 + "=\"" + attrs[0].1 + "\"" + AttrText(attrs[1..])
  }

  /** The replacement patterns of String.replace, for a match of ">" that ends
      its text: `before` stands in front of it, nothing behind it. */
  function Expand(pattern: string, before: string): string {
    if pattern == "" then ""
    else if pattern[0] == '$' && |pattern| > 1 && pattern[1] == '$' then "$" + Expand(pattern[2..], before)
    else if pattern[0] == '$' && |pattern| > 1 && pattern[1] == '&' then ">" + Expand(pattern[2..], before)
    else if pattern[0] == '$' && |pattern| > 1 && pattern[1] == '`' then before + Expand(pattern[2..], before)
    else if pattern[0] == '$' && |pattern| > 1 && pattern[1] == '\'' then Expand(pattern[2..], before)
    else [pattern[0]] + Expand(pattern[1..], before)
  }

  /** The attributes are spliced in with `replace` on the first ">". Only tags of
      one element have attributes. */
  function StartTag(names: seq<string>, attrs: Attrs): string {
    if attrs == [] || |names| != 1 then OpenTags(names)
    else "<" + names[0] + Expand(AttrText(attrs) + ">", "<" + names[0])
  }

  function ToHtml(node: Node): string {
    match node
    case Leaf(text) => Escape(text)
    case Tag(names, attrs, child) => StartTag(names, attrs) + ToHtml(child) + CloseTags(names)
    case Group(children) => AllToHtml(children)
  }

  function AllToHtml(nodes: seq<Node>): string {
    if nodes == [] then "" else ToHtml(nodes[0]) + AllToHtml(nodes[1..])
  }

  /** The text of a tree. */
  function LeafText(node: Node): string {
    match node
    case Leaf(text) => text
    case Tag(_, _, child) => LeafText(child)
    case Group(children) => AllLeafText(children)
  }

  function AllLeafText(nodes: seq<Node>): string {
    if nodes == [] then "" else LeafText(nodes[0]) + AllLeafText(nodes[1..])
  }
}
