/** What the formatter promises: the visible text of the HTML is a subsequence
    of the message, tags nest, and raw angle brackets occur only as tag
    delimiters. The HTML is judged by a strict reader that knows nothing of how
    it was made. */
module MarkdownLaws {
  import opened Text
  import opened Markdown

  // ---------------------------------------------------------------------
  // Subsequences
  // ---------------------------------------------------------------------

  predicate Sub(a: string, b: string) {
    a == "" || (b != "" && if a[0] == b[0] then Sub(a[1..], b[1..]) else Sub(a, b[1..]))
  }

  lemma {:induction false} SubRefl(a: string)
    ensures Sub(a, a)
  {
    if a != "" { SubRefl(a[1..]); }
  }

  lemma {:induction false} SubSkip(a: string, b: string, c: char)
    requires Sub(a, b)
    ensures Sub(a, [c] + b)
    decreases |b|, 1
  {
    assert ([c] + b)[1..] == b;
    if a != "" && a[0] == c {
      if a[0] == b[0] {
        assert b == [b[0]] + b[1..];
        SubSkip(a[1..], b[1..], b[0]);
      } else {
        SubTail(a, b);
      }
    }
  }

  lemma {:induction false} SubTail(a: string, b: string)
    requires a != "" && Sub(a, b)
    ensures Sub(a[1..], b)
    decreases |b|, 0
  {
    assert b == [b[0]] + b[1..];
    if a[0] == b[0] {
      SubSkip(a[1..], b[1..], b[0]);
    } else {
      SubTail(a, b[1..]);
      SubSkip(a[1..], b[1..], b[0]);
    }
  }

  lemma {:induction false} SubConcat(a: string, c: string, b: string, d: string)
    requires Sub(a, c) && Sub(b, d)
    ensures Sub(a + b, c + d)
    decreases |c|
  {
    if c == "" {
      assert a + b == b && c + d == d;
    } else {
      assert (c + d)[1..] == c[1..] + d;
      if a != "" && a[0] == c[0] {
        assert (a + b)[1..] == a[1..] + b;
        SubConcat(a[1..], c[1..], b, d);
      } else {
        if a == "" { SubEmpty(c[1..]); }
        SubConcat(a, c[1..], b, d);
        SubSkip(a + b, c[1..] + d, c[0]);
        assert c + d == [c[0]] + (c[1..] + d);
      }
    }
  }

  lemma SubEmpty(b: string)
    ensures Sub("", b)
  {
  }

  lemma {:induction false} SubTrans(a: string, b: string, c: string)
    requires Sub(a, b) && Sub(b, c)
    ensures Sub(a, c)
    decreases |c|
  {
    if a != "" && c != "" {
      if b[0] == c[0] {
        if a[0] == b[0] { SubTrans(a[1..], b[1..], c[1..]); }
        else { SubTrans(a, b[1..], c[1..]); }
      } else {
        SubTrans(a, b, c[1..]);
        SubSkip(a, c[1..], c[0]);
        assert c == [c[0]] + c[1..];
      }
    }
  }

  /** Three consecutive pieces of a text with gaps between them. */
  lemma SubPieces(str: string, i: nat, j: nat, k: nat, l: nat)
    requires i <= j <= k <= l <= |str|
    ensures Sub(str[..i] + str[j..k] + str[l..], str)
  {
    hide Sub;
    var a, gap, b, gap', c := str[..i], str[i..j], str[j..k], str[k..l], str[l..];
    assert a + gap == str[..j] && str[..j] + b == str[..k] && str[..k] + gap' == str[..l] && str[..l] + c == str;
    assert a + "" == a && a + b + "" == a + b;
    SubRefl(a);
    SubRefl(b);
    SubRefl(c);
    SubEmpty(gap);
    SubEmpty(gap');
    SubConcat(a, a, "", gap);
    SubConcat(a, a + gap, b, b);
    SubConcat(a + b, str[..k], "", gap');
    SubConcat(a + b, str[..l], c, c);
  }

  // ---------------------------------------------------------------------
  // The text of the tree
  // ---------------------------------------------------------------------

  ghost predicate Keeps(str: string, o: Outcome) {
    match o
    case Declined(text) => Sub(text, str)
    case Cut(before, _, _, content, _, after) => Sub(before + content + after, str)
  }

  lemma EnclosedKeeps(str: string, i: nat, j: nat, names: seq<string>, attrs: Attrs, nested: bool, mark: string)
    requires i <= j <= |str| && |mark| > 0
    ensures Keeps(str, Enclosed(str, str[..i], str[i..j], str[j..], names, attrs, nested, mark))
  {
    hide Sub;
    var end := IndexOf(str[j..], mark);
    SubRefl(str);
    if end != -1 {
      assert str[j..][..end] == str[j..j + end] && str[j..][end + |mark|..] == str[j + end + |mark|..];
      SubPieces(str, i, j, j + end, j + end + |mark|);
    }
  }

  lemma TagKeeps(str: string, i: nat, j: nat, names: seq<string>, nested: bool)
    requires i < j <= |str|
    ensures Keeps(str, HandleTag(str, str[..i], str[i..j], str[j..], names, nested))
  {
    hide Sub, Enclosed;
    if str[..i] != "" && str[..i][i - 1] == '\\' {
      SubPieces(str, i - 1, i, j, j);
      assert str[..i][..i - 1] == str[..i - 1];
    } else {
      EnclosedKeeps(str, i, j, names, [], nested, str[i..j]);
    }
  }

  lemma UrlKeeps(str: string, i: nat, j: nat)
    requires i + 1 < j <= |str|
    ensures Keeps(str, HandleUrl(str[..i], str[i..j], str[j..]))
  {
    hide Sub, Escape, BareLink, LinkOf;
    var captured := str[i..j];
    var link := LinkOf(captured);
    var bare, k := BareLink(link), i + |link|;
    assert link == str[i..k] && captured[|link|..] + str[j..] == str[k..];
    assert bare == str[k - |bare|..k];
    SubPieces(str, i, k - |bare|, k, k);
  }

  lemma HandleKeeps(rule: Rule, str: string, i: nat)
    requires i <= |str| && MatchEnd(rule, str, i) > i
    ensures Keeps(str, Handle(rule, str, i))
  {
    hide Sub, Enclosed, HandleTag, HandleUrl, Escape, HasScheme, EncodeChannel, ColorClass, Keeps, RunEnd;
    var j := MatchEnd(rule, str, i);
    match rule
    case Code => TagKeeps(str, i, j, ["code"], false);
    case EmStrong => TagKeeps(str, i, j, ["em", "strong"], true);
    case Strong => TagKeeps(str, i, j, ["strong"], true);
    case Em => TagKeeps(str, i, j, ["em"], true);
    case IrcColor => EnclosedKeeps(str, i, j, ["span"], [("class", ColorClass(str[i..j]))], true, [COLOR]);
    case IrcText => EnclosedKeeps(str, i, j, [IrcName(str[i..j][0])], [], true, str[i..j]);
    case Link => LinkKeeps(str, i);
    case Url => UrlKeeps(str, i, j);
    case ChannelName => ChannelKeeps(str, i);
  }

  lemma LinkKeeps(str: string, i: nat)
    requires i <= |str| && MatchEnd(Link, str, i) > i
    ensures Keeps(str, Handle(Link, str, i))
  {
    hide Sub, Escape, HasScheme, RunEnd;
    var text := RunEnd(str, i + 1, |str|, NonBracket);
    SubPieces(str, i, i + 1, text, MatchEnd(Link, str, i));
  }

  lemma ChannelKeeps(str: string, i: nat)
    requires i <= |str| && MatchEnd(ChannelName, str, i) > i
    ensures Keeps(str, Handle(ChannelName, str, i))
  {
    hide Sub, EncodeChannel, RunEnd;
    var j := MatchEnd(ChannelName, str, i);
    var captured := str[i..j];
    var hash := if IsSpace(captured[0]) then i + 1 else i;
    assert str[..i] + captured[..hash - i] == str[..hash] && captured[hash - i..] == str[hash..j];
    SubPieces(str, hash, hash, j, j);
  }

  lemma ApplyKeeps(rule: Rule, str: string)
    ensures Keeps(str, Apply(rule, str))
  {
    hide Handle, Sub, MatchEnd;
    SubRefl(str);
    var i := FirstMatch(rule, str, 0);
    if i < |str| { HandleKeeps(rule, str, i); }
  }

  lemma {:induction false} LeavesConcat(a: seq<Node>, b: seq<Node>)
    ensures AllLeafText(a + b) == AllLeafText(a) + AllLeafText(b)
  {
    hide LeafText;
    if a == [] {
      assert a + b == b;
    } else {
      LeavesConcat(a[1..], b);
      assert (a + b)[1..] == a[1..] + b && (a + b)[0] == a[0];
      assert LeafText(a[0]) + (AllLeafText(a[1..]) + AllLeafText(b)) ==
        LeafText(a[0]) + AllLeafText(a[1..]) + AllLeafText(b);
    }
  }

  lemma LeavesOfThree(a: seq<Node>, b: Node, c: seq<Node>)
    ensures AllLeafText(a + [b] + c) == AllLeafText(a) + LeafText(b) + AllLeafText(c)
  {
    hide LeafText;
    LeavesConcat(a, [b]);
    LeavesConcat(a + [b], c);
    assert [b][1..] == [];
    assert AllLeafText([b]) == LeafText(b) + "" == LeafText(b);
  }

  lemma {:induction false} TextIsKept(str: string, nested: bool, top: bool)
    ensures Sub(LeafText(MakeTag(str, nested, top)), str)
    decreases |str|, if nested then 1 else 0, 1, 0
  {
    hide Sub;
    if top && "> " <= str {
      TextIsKept(str[2..], nested, false);
      SubPieces(str, 0, 0, 0, 2);
      assert str[..0] + str[0..0] + str[2..] == str[2..];
      SubTrans(LeafText(MakeTag(str[2..], nested, false)), str[2..], str);
    } else {
      RulesKeepText(str, nested, 0);
    }
  }

  lemma {:induction false} RulesKeepText(str: string, nested: bool, r: nat)
    requires r <= |RULES|
    ensures Sub(LeafText(TryRules(str, nested, r)), str)
    decreases |str|, if nested then 1 else 0, 0, |RULES| - r
  {
    hide Sub, Apply;
    if !nested || r == |RULES| {
      SubRefl(str);
      assert AllLeafText([Leaf(str)]) == str + AllLeafText([]) == str + "" == str;
    } else {
      ApplyShrinks(RULES[r], str);
      ApplyKeeps(RULES[r], str);
      match Apply(RULES[r], str)
      case Declined(text) =>
        RulesKeepText(text, nested, r + 1);
        SubTrans(LeafText(TryRules(text, nested, r + 1)), text, str);
      case Cut(before, names, attrs, content, inner, after) =>
        var a := if before != "" then [MakeTag(before, nested, false)] else [];
        var b := Tag(names, attrs, MakeTag(content, inner, false));
        var c := if after != "" then [MakeTag(after, nested, false)] else [];
        LeavesOfThree(a, b, c);
        PartText(before, nested);
        TextIsKept(content, inner, false);
        PartText(after, nested);
        SubConcat(AllLeafText(a), before, LeafText(b), content);
        SubConcat(AllLeafText(a) + LeafText(b), before + content, AllLeafText(c), after);
        SubTrans(AllLeafText(a) + LeafText(b) + AllLeafText(c), before + content + after, str);
    }
  }

  /** The part before or after a tag, which is left out when empty. */
  lemma {:induction false} PartText(part: string, nested: bool)
    ensures Sub(AllLeafText(if part != "" then [MakeTag(part, nested, false)] else []), part)
    decreases |part|, if nested then 1 else 0, 1, 1
  {
    hide Sub;
    if part == "" {
      SubEmpty(part);
    } else {
      TextIsKept(part, nested, false);
      var node := MakeTag(part, nested, false);
      assert AllLeafText([node]) == LeafText(node) + "" == LeafText(node) by { assert [node][1..] == []; }
    }
  }

  // ---------------------------------------------------------------------
  // A strict reader of HTML
  // ---------------------------------------------------------------------

  predicate IsStop(c: char) { c == '<' || c == '>' || c == '"' }

  /** The longest run of letters at the start, and the rest. */
  function TakeName(s: string): (r: (string, string))
    ensures |r.0| + |r.1| == |s|
  {
    if s != "" && IsLetter(s[0]) then
      var (name, rest) := TakeName(s[1..]);
      ([s[0]] + name, rest)
    else ("", s)
  }

  /** What follows the longest run without quotes and angle brackets. */
  function SkipValue(s: string): (rest: string)
    ensures |rest| <= |s|
  {
    if s != "" && !IsStop(s[0]) then SkipValue(s[1..]) else s
  }

  /** Quoted attributes up to the end of the tag; the rest behind it. */
  function ReadAttrs(s: string): (r: Option<string>)
    ensures r.Some? ==> |r.value| < |s|
    decreases |s|
  {
    if s == "" then None
    else if s[0] == '>' then Some(s[1..])
    else if s[0] != ' ' then None
    else
      var (key, rest) := TakeName(s[1..]);
      if key == "" || !("=\"" <= rest) then None
      else
        var tail := SkipValue(rest[2..]);
        if tail == "" || tail[0] != '"' then None else ReadAttrs(tail[1..])
  }

  datatype Token = Bad | Opening(name: string, rest: string) | Closing(name: string, rest: string)

  /** One tag, after its "<". */
  function ReadTag(s: string): (t: Token)
    ensures !t.Bad? ==> |t.rest| < |s|
  {
    if s != "" && s[0] == '/' then
      var (name, rest) := TakeName(s[1..]);
      if name != "" && rest != "" && rest[0] == '>' then Closing(name, rest[1..]) else Bad
    else
      var (name, rest) := TakeName(s);
      if name == "" then Bad
      else
        var tail := ReadAttrs(rest);
        if tail.Some? then Opening(name, tail.value) else Bad
  }

  function ReadEntity(s: string): (r: Option<(char, string)>)
    ensures r.Some? ==> |r.value.1| < |s|
  {
    if "&amp;" <= s then Some(('&', s[5..]))
    else if "&lt;" <= s then Some(('<', s[4..]))
    else if "&gt;" <= s then Some(('>', s[4..]))
    else if "&apos;" <= s then Some(('\'', s[6..]))
    else if "&quot;" <= s then Some(('"', s[6..]))
    else None
  }

  function Before(text: string, r: Option<string>): Option<string> {
    if r.Some? then Some(text + r.value) else None
  }

  /** The visible text of HTML, if its tags nest within the open ones given,
      every raw angle bracket delimits a tag, and every & starts an entity. */
  function Read(html: string, open: seq<string>): Option<string>
    decreases |html|
  {
    if html == "" then (if open == [] then Some("") else None)
    else if html[0] == '>' then None
    else if html[0] == '<' then
      match ReadTag(html[1..])
      case Bad => None
      case Opening(name, rest) => Read(rest, open + [name])
      case Closing(name, rest) =>
        if open != [] && open[|open| - 1] == name then Read(rest, open[..|open| - 1]) else None
    else if html[0] == '&' then
      var e := ReadEntity(html);
      if e.Some? then Before([e.value.0], Read(e.value.1, open)) else None
    else Before([html[0]], Read(html[1..], open))
  }

  // ---------------------------------------------------------------------
  // Text and plain tags
  // ---------------------------------------------------------------------

  lemma ReadEscapedChar(c: char, rest: string, open: seq<string>)
    ensures Read(EscapeChar(c) + rest, open) == Before([c], Read(rest, open))
  {
    var html := EscapeChar(c) + rest;
    if c == '&' { assert html[5..] == rest && html[..5] == "&amp;"; }
    else if c == '<' { assert html[4..] == rest && html[..4] == "&lt;" && html[1] == 'l'; }
    else if c == '>' { assert html[4..] == rest && html[..4] == "&gt;" && html[1] == 'g'; }
    else if c == '\'' { assert html[6..] == rest && html[..6] == "&apos;" && html[2] == 'p'; }
    else if c == '"' { assert html[6..] == rest && html[..6] == "&quot;" && html[1] == 'q'; }
    else { assert html[1..] == rest; }
  }

  lemma {:induction false} ReadText(text: string, rest: string, open: seq<string>)
    ensures Read(Escape(text) + rest, open) == Before(text, Read(rest, open))
  {
    hide Read, EscapeChar;
    var r := Read(rest, open);
    if text == "" {
      assert Escape(text) + rest == rest;
      if r.Some? { assert text + r.value == r.value; }
      assert Before(text, r) == r;
    } else {
      assert Escape(text) + rest == EscapeChar(text[0]) + (Escape(text[1..]) + rest);
      ReadEscapedChar(text[0], Escape(text[1..]) + rest, open);
      ReadText(text[1..], rest, open);
      if r.Some? { assert [text[0]] + (text[1..] + r.value) == text + r.value; }
    }
  }

  predicate IsName(s: string) { s != "" && forall i :: 0 <= i < |s| ==> IsLetter(s[i]) }

  lemma {:induction false} TakeNameOf(name: string, rest: string)
    requires forall i :: 0 <= i < |name| ==> IsLetter(name[i])
    requires rest == "" || !IsLetter(rest[0])
    ensures TakeName(name + rest) == (name, rest)
  {
    if name == "" {
      assert name + rest == rest;
    } else {
      TakeNameOf(name[1..], rest);
      assert (name + rest)[1..] == name[1..] + rest;
      assert [name[0]] + name[1..] == name;
    }
  }

  ghost predicate AreNames(names: seq<string>) { forall n :: n in names ==> IsName(n) }

  lemma ReadOpening(name: string, rest: string)
    requires IsName(name)
    ensures ReadTag(name + ">" + rest) == Opening(name, rest)
  {
    assert name + ">" + rest == name + (">" + rest);
    TakeNameOf(name, ">" + rest);
    assert (">" + rest)[1..] == rest;
    assert (name + ">" + rest)[0] == name[0];
  }

  lemma ReadClosing(name: string, rest: string)
    requires IsName(name)
    ensures ReadTag("/" + name + ">" + rest) == Closing(name, rest)
  {
    var s := "/" + name + ">" + rest;
    assert s[1..] == name + (">" + rest);
    TakeNameOf(name, ">" + rest);
    assert (">" + rest)[1..] == rest;
  }

  lemma ReadOneOpening(name: string, rest: string, open: seq<string>)
    requires IsName(name)
    ensures Read("<" + (name + ">" + rest), open) == Read(rest, open + [name])
  {
    hide ReadTag, IsName;
    ReadOpening(name, rest);
    assert ("<" + (name + ">" + rest))[1..] == name + ">" + rest;
  }

  lemma {:induction false} ReadOpenTags(names: seq<string>, rest: string, open: seq<string>)
    requires AreNames(names)
    ensures Read(OpenTags(names) + rest, open) == Read(rest, open + names)
  {
    hide Read, IsName;
    if names == [] {
      assert OpenTags(names) + rest == rest && open + names == open;
    } else {
      var tail := OpenTags(names[1..]) + rest;
      assert names[0] in names;
      assert OpenTags(names) + rest == "<" + (names[0] + ">" + tail);
      ReadOneOpening(names[0], tail, open);
      ReadOpenTags(names[1..], rest, open + [names[0]]);
      assert open + [names[0]] + names[1..] == open + names;
    }
  }

  lemma {:induction false} ReadCloseTags(names: seq<string>, rest: string, open: seq<string>)
    requires AreNames(names)
    ensures Read(CloseTags(names) + rest, open + names) == Read(rest, open)
  {
    hide ReadTag, IsName;
    if names == [] {
      assert CloseTags(names) + rest == rest && open + names == open;
    } else {
      var last := "</" + names[0] + ">" + rest;
      assert CloseTags(names) + rest == CloseTags(names[1..]) + last;
      assert open + names == open + [names[0]] + names[1..];
      ReadCloseTags(names[1..], last, open + [names[0]]);
      assert last[1..] == "/" + names[0] + ">" + rest;
      ReadClosing(names[0], rest);
      assert (open + [names[0]])[..|open|] == open;
    }
  }

  // ---------------------------------------------------------------------
  // Attributes
  // ---------------------------------------------------------------------

  /** The value neither ends the quotes nor looks like a tag. */
  predicate Quoted(v: string) { forall i :: 0 <= i < |v| ==> !IsStop(v[i]) && v[i] != '\'' }

  /** No replacement pattern of `String.replace` that inserts a bracket: `$&`
      inserts the matched ">", and $` the text before it. */
  predicate Harmless(v: string) {
    v == "" || if v[0] == '$' && |v| > 1 && v[1] == '$' then Harmless(v[2..])
               else !(v[0] == '$' && |v| > 1 && (v[1] == '&' || v[1] == '`')) && Harmless(v[1..])
  }

  predicate AttrsOk(attrs: Attrs) { forall a :: a in attrs ==> IsName(a.0) && Quoted(a.1) }

  predicate AllHarmless(attrs: Attrs) { forall a :: a in attrs ==> Harmless(a.1) }

  lemma {:induction false} ExpandPlain(p: string, tail: string, before: string)
    requires '$' !in p
    ensures Expand(p + tail, before) == p + Expand(tail, before)
  {
    if p == "" {
      assert p + tail == tail;
    } else {
      assert (p + tail)[0] == p[0] && (p + tail)[1..] == p[1..] + tail;
      ExpandPlain(p[1..], tail, before);
      assert [p[0]] + (p[1..] + Expand(tail, before)) == p + Expand(tail, before);
    }
  }

  lemma ExpandStep(v: string, tail: string, before: string)
    requires v != "" && tail != "" && tail[0] == '"' && v[0] != '\'' && before != "" && before[0] == '<'
    requires |v| > 1 ==> v[1] != '\''
    ensures var x := Expand(v + tail, before);
      if v[0] == '$' && |v| > 1 && v[1] == '$' then x == ['$'] + Expand(v[2..] + tail, before)
      else if v[0] == '$' && |v| > 1 && (v[1] == '&' || v[1] == '`') then x != "" && IsStop(x[0]) && x[0] != '"'
      else x == [v[0]] + Expand(v[1..] + tail, before)
  {
    var text := v + tail;
    assert text[0] == v[0] && text[1..] == v[1..] + tail;
    assert text[1] == if |v| > 1 then v[1] else '"';
    if |v| > 1 { assert text[2..] == v[2..] + tail; }
  }

  /** Reading an expanded attribute value stops at its closing quote exactly when
      the value is harmless. */
  lemma {:induction false} SkipExpanded(v: string, tail: string, before: string, rest: string)
    requires Quoted(v) && tail != "" && tail[0] == '"' && before != "" && before[0] == '<'
    ensures var s := SkipValue(Expand(v + tail, before) + rest);
      if Harmless(v) then s == Expand(tail, before) + rest else s != "" && s[0] != '"'
    decreases |v|
  {
    hide Expand;
    if v == "" {
      assert v + tail == tail;
      QuoteStops(tail, before, rest);
    } else {
      ExpandStep(v, tail, before);
      if v[0] == '$' && |v| > 1 && v[1] == '$' {
        SkipExpanded(v[2..], tail, before, rest);
        SkipOne('$', Expand(v[2..] + tail, before) + rest);
        assert ['$'] + Expand(v[2..] + tail, before) + rest == ['$'] + (Expand(v[2..] + tail, before) + rest);
      } else if v[0] == '$' && |v| > 1 && (v[1] == '&' || v[1] == '`') {
      } else {
        SkipExpanded(v[1..], tail, before, rest);
        SkipOne(v[0], Expand(v[1..] + tail, before) + rest);
        assert [v[0]] + Expand(v[1..] + tail, before) + rest == [v[0]] + (Expand(v[1..] + tail, before) + rest);
      }
    }
  }

  lemma QuoteStops(tail: string, before: string, rest: string)
    requires tail != "" && tail[0] == '"'
    ensures SkipValue(Expand(tail, before) + rest) == Expand(tail, before) + rest
  {
    assert Expand(tail, before) == ['"'] + Expand(tail[1..], before);
  }

  lemma SkipOne(c: char, s: string)
    requires !IsStop(c)
    ensures SkipValue([c] + s) == SkipValue(s)
  {
    assert ([c] + s)[1..] == s;
  }

  /** A list of attributes is read back exactly when all its values are harmless. */
  lemma {:induction false} ReadExpanded(attrs: Attrs, before: string, rest: string)
    requires AttrsOk(attrs) && before != "" && before[0] == '<'
    ensures ReadAttrs(Expand(AttrText(attrs) + ">", before) + rest) == if AllHarmless(attrs) then Some(rest) else None
  {
    hide Harmless, Quoted;
    if attrs == [] {
      assert AttrText(attrs) + ">" == ">";
      EndOfTag(before, rest);
    } else {
      var (key, value) := attrs[0];
      assert attrs[0] in attrs;
      var more := AttrText(attrs[1..]) + ">";
      assert AttrText(attrs) + ">" == " " + key + "=\"" + (value + ("\"" + more));
      ReadExpanded(attrs[1..], before, rest);
      ReadOneAttr(key, value, more, before, rest);
      assert forall a :: a in attrs <==> a == attrs[0] || a in attrs[1..];
    }
  }

  lemma EndOfTag(before: string, rest: string)
    ensures ReadAttrs(Expand(">", before) + rest) == Some(rest)
  {
    assert Expand(">", before) == ">" + Expand("", before) == ">";
    assert (">" + rest)[1..] == rest;
  }

  lemma ReadOneAttr(key: string, value: string, more: string, before: string, rest: string)
    requires IsName(key) && Quoted(value) && before != "" && before[0] == '<'
    ensures ReadAttrs(Expand(" " + key + "=\"" + (value + ("\"" + more)), before) + rest)
      == if Harmless(value) then ReadAttrs(Expand(more, before) + rest) else None
  {
    hide Harmless, Quoted, SkipValue;
    var head, tail := " " + key + "=\"", "\"" + more;
    ExpandPlain(head, value + tail, before);
    ExpandPlain("\"", more, before);
    var x := Expand(value + tail, before) + rest;
    var s := Expand(head + (value + tail), before) + rest;
    assert s == head + x;
    assert s[1..] == key + ("=\"" + x);
    TakeNameOf(key, "=\"" + x);
    assert ("=\"" + x)[2..] == x;
    SkipExpanded(value, tail, before, rest);
    assert (Expand(tail, before) + rest)[1..] == Expand(more, before) + rest;
  }

  // ---------------------------------------------------------------------
  // Trees
  // ---------------------------------------------------------------------

  ghost predicate NodeOk(node: Node) {
    match node
    case Leaf(_) => true
    case Tag(names, attrs, child) => AreNames(names) && AttrsOk(attrs) && (attrs != [] ==> |names| == 1)
      && NodeOk(child)
    case Group(children) => forall c :: c in children ==> NodeOk(c)
  }

  /** Whether every attribute in a tree is harmless: something a caller can check
      before rendering. */
  predicate NodeHarmless(node: Node) {
    match node
    case Leaf(_) => true
    case Tag(_, attrs, child) => AllHarmless(attrs) && NodeHarmless(child)
    case Group(children) => forall c :: c in children ==> NodeHarmless(c)
  }

  lemma ReadStartTag(names: seq<string>, attrs: Attrs, rest: string, open: seq<string>)
    requires AreNames(names) && AttrsOk(attrs) && (attrs != [] ==> |names| == 1)
    ensures Read(StartTag(names, attrs) + rest, open) == if AllHarmless(attrs) then Read(rest, open + names) else None
  {
    hide Harmless, Quoted, IsName, AttrsOk, AllHarmless, Read, Expand, ReadAttrs, ReadTag, AttrText;
    if attrs == [] {
      ReadOpenTags(names, rest, open);
      assert AllHarmless(attrs) by { NoAttrs(); }
    } else {
      var name := names[0];
      assert name in names && names == [name];
      var tag := Expand(AttrText(attrs) + ">", "<" + name);
      ReadExpanded(attrs, "<" + name, rest);
      FirstIsBlank(attrs, "<" + name);
      assert StartTag(names, attrs) + rest == "<" + (name + (tag + rest));
      NameThenAttrs(name, tag + rest);
      ReadLess(name + (tag + rest), open);
    }
  }

  lemma NoAttrs()
    ensures AllHarmless([])
  {
  }

  lemma ReadLess(s: string, open: seq<string>)
    ensures ReadTag(s).Opening? ==> Read("<" + s, open) == Read(ReadTag(s).rest, open + [ReadTag(s).name])
    ensures ReadTag(s).Bad? ==> Read("<" + s, open) == None
  {
    hide ReadTag;
    assert ("<" + s)[1..] == s;
  }

  lemma FirstIsBlank(attrs: Attrs, before: string)
    requires attrs != []
    ensures var x := Expand(AttrText(attrs) + ">", before); x != "" && x[0] == ' '
  {
  }

  lemma NameThenAttrs(name: string, tail: string)
    requires IsName(name) && tail != "" && tail[0] == ' '
    ensures ReadTag(name + tail) == match ReadAttrs(tail) case Some(rest) => Opening(name, rest) case None => Bad
  {
    TakeNameOf(name, tail);
    assert (name + tail)[0] == name[0];
  }

  /** Rendering is faithful exactly when no attribute is harmful: the reader then
      gets the text of the tree, and otherwise rejects the HTML. */
  lemma {:induction false} ReadNode(node: Node, rest: string, open: seq<string>)
    requires NodeOk(node)
    ensures Read(ToHtml(node) + rest, open) ==
      if NodeHarmless(node) then Before(LeafText(node), Read(rest, open)) else None
    decreases node, 0
  {
    hide Read, StartTag, AttrsOk, AllHarmless, AreNames;
    match node
    case Leaf(text) => ReadText(text, rest, open);
    case Group(children) => ReadNodes(children, rest, open);
    case Tag(names, attrs, child) =>
      var tail := CloseTags(names) + rest;
      assert ToHtml(node) + rest == StartTag(names, attrs) + (ToHtml(child) + tail);
      ReadStartTag(names, attrs, ToHtml(child) + tail, open);
      ReadNode(child, tail, open + names);
      ReadCloseTags(names, rest, open);
  }

  lemma {:induction false} ReadNodes(nodes: seq<Node>, rest: string, open: seq<string>)
    requires forall c :: c in nodes ==> NodeOk(c)
    ensures Read(AllToHtml(nodes) + rest, open) ==
      if forall c :: c in nodes ==> NodeHarmless(c) then Before(AllLeafText(nodes), Read(rest, open)) else None
    decreases nodes, 1
  {
    hide Read, NodeOk, NodeHarmless, ToHtml, LeafText;
    var r := Read(rest, open);
    if nodes == [] {
      assert AllToHtml(nodes) + rest == rest;
      if r.Some? { assert "" + r.value == r.value; }
      assert Before("", r) == r;
    } else {
      var tail := AllToHtml(nodes[1..]) + rest;
      assert AllToHtml(nodes) + rest == ToHtml(nodes[0]) + tail;
      assert nodes[0] in nodes && forall c :: c in nodes <==> c == nodes[0] || c in nodes[1..];
      ReadNode(nodes[0], tail, open);
      ReadNodes(nodes[1..], rest, open);
      if r.Some? {
        assert LeafText(nodes[0]) + (AllLeafText(nodes[1..]) + r.value) == AllLeafText(nodes) + r.value;
      }
    }
  }

  // ---------------------------------------------------------------------
  // The trees that messages make
  // ---------------------------------------------------------------------

  lemma {:induction false} EscapeIsQuoted(s: string)
    ensures Quoted(Escape(s)) && ('$' !in s ==> '$' !in Escape(s))
  {
    if s != "" {
      EscapeIsQuoted(s[1..]);
      var c := EscapeChar(s[0]);
      assert Quoted(c) && (s[0] != '$' ==> '$' !in c);
    }
  }

  lemma {:induction false} NoDollar(v: string)
    requires '$' !in v
    ensures Harmless(v)
  {
    if v != "" { NoDollar(v[1..]); }
  }

  lemma {:induction false} EncodedIsQuoted(name: string)
    requires forall i :: 0 <= i < |name| ==> name[i] == '#' || IsChannel(name[i])
    ensures Quoted(EncodeChannel(name)) && '$' !in EncodeChannel(name)
  {
    if name != "" { EncodedIsQuoted(name[1..]); }
  }

  ghost predicate OutcomeOk(str: string, o: Outcome) {
    match o
    case Declined(text) => '$' !in str ==> '$' !in text
    case Cut(before, names, attrs, content, _, after) =>
      && AreNames(names) && AttrsOk(attrs) && (attrs != [] ==> |names| == 1)
      && ('$' !in str ==> AllHarmless(attrs) && '$' !in before && '$' !in content && '$' !in after)
  }

  predicate Clean(s: string) { Quoted(s) && '$' !in s }

  lemma CleanConcat(a: string, b: string)
    requires Clean(a) && Clean(b)
    ensures Clean(a + b)
  {
  }

  lemma CleanSlice(s: string, i: nat, j: nat)
    requires Clean(s) && i <= j <= |s|
    ensures Clean(s[i..j])
  {
  }

  lemma CleanWords()
    ensures Clean("") && Clean("bg-") && Clean(" ") && Clean("text-") && Clean("_blank")
  {
  }

  lemma ColorIsQuoted(captured: string)
    requires |captured| > 0 && Clean(captured)
    ensures Clean(ColorClass(captured))
  {
    hide TwoDigits, Clean;
    CleanWords();
    var end := TwoDigits(captured, 1);
    var digits := captured[1..end];
    CleanSlice(captured, 1, end);
    if |digits| == 2 { CleanSlice(digits, 1, 2); assert digits[1..2] == digits[1..]; }
    var fg := if |digits| == 2 && digits[0] == '0' then digits[1..] else digits;
    var bg := if StartsAt(captured, end, ",") then captured[end + 1..] else "";
    if StartsAt(captured, end, ",") {
      CleanSlice(captured, end + 1, |captured|);
      assert captured[end + 1..|captured|] == captured[end + 1..];
    }
    CleanConcat("bg-", bg);
    CleanConcat("bg-" + bg, " ");
    var front := if bg != "" then "bg-" + bg + " " else "";
    CleanConcat(front, "text-");
    CleanConcat(front + "text-", fg);
  }

  lemma ColorMatch(str: string, i: nat)
    requires i <= |str| && MatchEnd(IrcColor, str, i) > i
    ensures var captured := str[i..MatchEnd(IrcColor, str, i)];
      Clean(captured)
  {
    var j := MatchEnd(IrcColor, str, i);
    var fg := TwoDigits(str, i + 1);
    forall k | i <= k < j ensures str[k] == COLOR || IsDigit(str[k]) || str[k] == ',' {
      if i < k < fg { assert InClass(str[k], Digits); }
      else if k > fg { assert InClass(str[k], Digits); }
    }
    forall k | 0 <= k < j - i ensures !IsStop(str[i..j][k]) && str[i..j][k] != '\'' && str[i..j][k] != '$' {
      assert str[i..j][k] == str[i + k];
    }
  }

  lemma EnclosedOk(str: string, i: nat, j: nat, names: seq<string>, attrs: Attrs, nested: bool, mark: string)
    requires i < j <= |str| && |mark| > 0 && AreNames(names) && AttrsOk(attrs) && AllHarmless(attrs)
    requires attrs != [] ==> |names| == 1
    ensures OutcomeOk(str, Enclosed(str, str[..i], str[i..j], str[j..], names, attrs, nested, mark))
    ensures attrs == [] ==> OutcomeOk(str, HandleTag(str, str[..i], str[i..j], str[j..], names, nested))
  {
    hide AreNames, AttrsOk, AllHarmless;
    var end := IndexOf(str[j..], mark);
    var end' := IndexOf(str[j..], str[i..j]);
  }

  lemma HandleOk(rule: Rule, str: string, i: nat)
    requires i <= |str| && MatchEnd(rule, str, i) > i
    ensures OutcomeOk(str, Handle(rule, str, i))
  {
    hide RunEnd, Escape, HasScheme, EncodeChannel, ColorClass, Enclosed, HandleTag;
    hide OutcomeOk, MatchEnd, Quoted, Harmless;
    var j := MatchEnd(rule, str, i);
    match rule
    case Code => EnclosedOk(str, i, j, ["code"], [], false, "`");
    case EmStrong => EnclosedOk(str, i, j, ["em", "strong"], [], true, "*");
    case Strong => EnclosedOk(str, i, j, ["strong"], [], true, "*");
    case Em => EnclosedOk(str, i, j, ["em"], [], true, "*");
    case IrcColor =>
      ColorMatch(str, i);
      ColorIsQuoted(str[i..j]);
      NoDollar(ColorClass(str[i..j]));
      EnclosedOk(str, i, j, ["span"], [("class", ColorClass(str[i..j]))], true, [COLOR]);
    case IrcText => EnclosedOk(str, i, j, [IrcName(str[i..j][0])], [], true, str[i..j]);
    case Link => LinkOk(str, i);
    case Url => UrlOk(str, i);
    case ChannelName => ChannelOk(str, i);
  }

  lemma HrefOk(target: string, blank: bool)
    ensures var attrs: Attrs := [("href", Escape(target))] + if blank then [("target", "_blank")] else [];
      AttrsOk(attrs) && AreNames(["a"]) && ('$' !in target ==> AllHarmless(attrs))
  {
    hide Escape, Quoted, Harmless, IsName;
    EscapeIsQuoted(target);
    if '$' !in target { NoDollar(Escape(target)); }
    CleanWords();
    NoDollar("_blank");
    KeyNames();
  }

  lemma KeyNames()
    ensures IsName("a") && IsName("href") && IsName("target") && IsName("class") && IsName("span")
  {
  }

  lemma LinkOk(str: string, i: nat)
    requires i <= |str| && MatchEnd(Link, str, i) > i
    ensures OutcomeOk(str, Handle(Link, str, i))
  {
    hide RunEnd, Escape, HasScheme, AttrsOk, AreNames, AllHarmless;
    var text := RunEnd(str, i + 1, |str|, NonBracket);
    var target := str[text + 2..MatchEnd(Link, str, i) - 1];
    HrefOk(target, HasScheme(target));
  }

  lemma UrlOk(str: string, i: nat)
    requires i <= |str| && MatchEnd(Url, str, i) > i
    ensures OutcomeOk(str, Handle(Url, str, i))
  {
    hide RunEnd, AttrsOk, AreNames, AllHarmless, HandleUrl, OutcomeOk;
    UrlParts(str, i, MatchEnd(Url, str, i));
  }

  lemma DollarFree(s: string, i: nat, j: nat)
    requires i <= j <= |s| && '$' !in s
    ensures '$' !in s[i..j]
  {
  }

  lemma UrlParts(str: string, i: nat, j: nat)
    requires i + 1 < j <= |str|
    ensures OutcomeOk(str, HandleUrl(str[..i], str[i..j], str[j..]))
  {
    hide Escape, AttrsOk, AreNames, AllHarmless, LinkOf, BareLink;
    var link := LinkOf(str[i..j]);
    HrefOk(link, true);
    assert [("href", Escape(link))] + [("target", "_blank")] == [("href", Escape(link)), ("target", "_blank")];
    if '$' !in str {
      DollarFree(str, i, j);
      DollarFree(str[i..j], 0, |link|);
      DollarFree(str[i..j], |link|, j - i);
      assert str[i..j][0..|link|] == link && str[i..j][|link|..j - i] == str[i..j][|link|..];
      DollarFree(link, |link| - |BareLink(link)|, |link|);
      DollarFree(str, 0, i);
      DollarFree(str, j, |str|);
    }
  }

  lemma ChannelOk(str: string, i: nat)
    requires i <= |str| && MatchEnd(ChannelName, str, i) > i
    ensures OutcomeOk(str, Handle(ChannelName, str, i))
  {
    hide EncodeChannel, AllHarmless, AttrsOk, AreNames;
    var captured := str[i..MatchEnd(ChannelName, str, i)];
    var name := if IsSpace(captured[0]) then captured[1..] else captured;
    ChannelCharacters(str, i);
    EncodedIsQuoted(name);
    ChannelHref(EncodeChannel(name));
  }

  lemma ChannelCharacters(str: string, i: nat)
    requires i <= |str| && MatchEnd(ChannelName, str, i) > i
    ensures var captured := str[i..MatchEnd(ChannelName, str, i)];
      var name := if IsSpace(captured[0]) then captured[1..] else captured;
      forall k :: 0 <= k < |name| ==> name[k] == '#' || IsChannel(name[k])
  {
  }

  lemma ChannelHref(encoded: string)
    requires Quoted(encoded) && '$' !in encoded
    ensures var attrs := [("href", "./" + encoded)]; AttrsOk(attrs) && AreNames(["a"]) && AllHarmless(attrs)
  {
    NoDollar("./" + encoded);
  }

  lemma ApplyOk(rule: Rule, str: string)
    ensures OutcomeOk(str, Apply(rule, str))
  {
    hide Handle, MatchEnd;
    var i := FirstMatch(rule, str, 0);
    if i < |str| { HandleOk(rule, str, i); }
  }

  lemma {:induction false} TreeIsOk(str: string, nested: bool, top: bool)
    ensures NodeOk(MakeTag(str, nested, top)) && ('$' !in str ==> NodeHarmless(MakeTag(str, nested, top)))
    decreases |str|, if nested then 1 else 0, 1, 0
  {
    if top && "> " <= str {
      TreeIsOk(str[2..], nested, false);
    } else {
      RulesMakeOk(str, nested, 0);
    }
  }

  lemma {:induction false} RulesMakeOk(str: string, nested: bool, r: nat)
    requires r <= |RULES|
    ensures NodeOk(TryRules(str, nested, r)) && ('$' !in str ==> NodeHarmless(TryRules(str, nested, r)))
    decreases |str|, if nested then 1 else 0, 0, |RULES| - r
  {
    hide Apply, AreNames, AttrsOk, AllHarmless;
    if nested && r < |RULES| {
      ApplyShrinks(RULES[r], str);
      ApplyOk(RULES[r], str);
      match Apply(RULES[r], str)
      case Declined(text) => RulesMakeOk(text, nested, r + 1);
      case Cut(before, names, attrs, content, inner, after) =>
        if before != "" { TreeIsOk(before, nested, false); }
        TreeIsOk(content, inner, false);
        if after != "" { TreeIsOk(after, nested, false); }
    }
  }

  // ---------------------------------------------------------------------
  // Which messages are safe
  // ---------------------------------------------------------------------

  function LinkTargetAt(str: string, i: nat): string
    requires i <= |str| && MatchEnd(Link, str, i) > i
  {
    str[RunEnd(str, i + 1, |str|, NonBracket) + 2..MatchEnd(Link, str, i) - 1]
  }

  function UrlAt(str: string, i: nat): string
    requires i <= |str| && MatchEnd(Url, str, i) > i
  {
    LinkOf(str[i..MatchEnd(Url, str, i)])
  }

  /** The target of the link or the URL that a rule finds in a text. */
  function TargetOf(rule: Rule, str: string): Option<string> {
    var i := FirstMatch(rule, str, 0);
    if i == |str| then None
    else
      match rule
      case Link => Some(LinkTargetAt(str, i))
      case Url => Some(UrlAt(str, i))
      case _ => None
  }

  /** All link targets and URLs in a message, as the rules find them. */
  function LinkTargets(str: string, nested: bool, top: bool): seq<string>
    decreases |str|, if nested then 1 else 0, 1, 0
  {
    if top && "> " <= str then LinkTargets(str[2..], nested, false) else RuleTargets(str, nested, 0)
  }

  function RuleTargets(str: string, nested: bool, r: nat): seq<string>
    requires r <= |RULES|
    decreases |str|, if nested then 1 else 0, 0, |RULES| - r
  {
    if !nested || r == |RULES| then []
    else
      ApplyShrinks(RULES[r], str);
      match Apply(RULES[r], str)
      case Declined(text) => RuleTargets(text, nested, r + 1)
      case Cut(before, _, _, content, inner, after) =>
        (if before != "" then LinkTargets(before, nested, false) else [])
        + (if TargetOf(RULES[r], str).Some? then [TargetOf(RULES[r], str).value] else [])
        + LinkTargets(content, inner, false)
        + (if after != "" then LinkTargets(after, nested, false) else [])
  }

  /** Once pairs of dollars are taken out, no dollar stands before a backquote or
      one of the characters that are escaped with an ampersand. */
  predicate Plain(t: string) {
    t == "" ||
    if t[0] == '$' && |t| > 1 && t[1] == '$' then Plain(t[2..])
    else !(t[0] == '$' && |t| > 1 && t[1] in {'&', '<', '>', '\'', '"', '`'}) && Plain(t[1..])
  }

  lemma {:induction false} HarmlessAfter(p: string, v: string)
    requires '$' !in p
    ensures Harmless(p + v) <==> Harmless(v)
  {
    if p == "" {
      assert p + v == v;
    } else {
      assert (p + v)[1..] == p[1..] + v && (p + v)[0] == p[0];
      HarmlessAfter(p[1..], v);
    }
  }

  lemma HarmlessDollar(c: char, v: string)
    ensures c == '$' ==> (Harmless("$" + ([c] + v)) <==> Harmless(v))
    ensures c != '$' ==> (Harmless("$" + ([c] + v)) <==> c != '&' && c != '`' && Harmless([c] + v))
  {
    var w := "$" + ([c] + v);
    assert w[1..] == [c] + v && w[2..] == v && w[0] == '$' && w[1] == c;
  }

  lemma EscapeFirst(t: string)
    requires t != ""
    ensures Escape(t) == EscapeChar(t[0]) + Escape(t[1..])
    ensures Plain(t) <==>
      if t[0] == '$' && |t| > 1 && t[1] == '$' then Plain(t[2..])
      else !(t[0] == '$' && |t| > 1 && t[1] in {'&', '<', '>', '\'', '"', '`'}) && Plain(t[1..])
  {
  }

  /** How an escaped character starts. */
  lemma EscapeStarts(c: char)
    ensures var e := EscapeChar(c);
      && e != "" && (c != '$' ==> '$' !in e) && (c == '$' ==> e == "$")
      && (e[0] == '&' || e[0] == '`' <==> c in {'&', '<', '>', '\'', '"', '`'})
  {
  }

  lemma {:induction false} EscapedIsHarmless(t: string)
    ensures Harmless(Escape(t)) <==> Plain(t)
    decreases |t|
  {
    hide Harmless, Escape, EscapeChar, Plain;
    if t == "" {
      NothingEscaped();
    } else {
      EscapeFirst(t);
      EscapeStarts(t[0]);
      EscapedIsHarmless(t[1..]);
      if t[0] != '$' {
        HarmlessAfter(EscapeChar(t[0]), Escape(t[1..]));
      } else if |t| == 1 {
        NothingEscaped();
        assert "$" + "" == "$";
      } else {
        EscapedIsHarmless(t[2..]);
        EscapeFirst(t[1..]);
        EscapeStarts(t[1]);
        var e, rest := EscapeChar(t[1]), Escape(t[2..]);
        assert t[1..][1..] == t[2..];
        assert e + rest == [e[0]] + (e[1..] + rest);
        assert e[1..] == "" ==> e[1..] + rest == rest;
        HarmlessDollar(e[0], e[1..] + rest);
      }
    }
  }

  lemma NothingEscaped()
    ensures Escape("") == "" && Plain("") && Harmless("") && Harmless("$")
  {
    assert "$"[1..] == "";
  }

  lemma HarmlessPair(a: (string, string), rest: Attrs)
    ensures AllHarmless([a] + rest) <==> Harmless(a.1) && AllHarmless(rest)
    ensures AllHarmless([])
  {
    hide Harmless;
    assert forall x :: x in [a] + rest <==> x == a || x in rest;
  }

  /** A link is harmless exactly when its target is plain. */
  lemma HrefIsPlain(target: string, blank: bool)
    ensures AllHarmless([("href", Escape(target))] + if blank then [("target", "_blank")] else []) <==> Plain(target)
  {
    hide Harmless, AllHarmless, Plain, Escape;
    EscapedIsHarmless(target);
    NoDollar("_blank");
    HarmlessPair(("target", "_blank"), []);
    assert [("target", "_blank")] + [] == [("target", "_blank")];
    HarmlessPair(("href", Escape(target)), if blank then [("target", "_blank")] else []);
  }

  /** Of all rules only the two for links can make a harmful attribute. */
  lemma CutIsPlain(rule: Rule, str: string)
    requires Apply(rule, str).Cut?
    ensures AllHarmless(Apply(rule, str).attrs) <==> TargetOf(rule, str).None? || Plain(TargetOf(rule, str).value)
  {
    hide AllHarmless, Plain, Escape, RunEnd, MatchEnd, HasScheme, EncodeChannel, ColorClass;
    hide LinkTargetAt, UrlAt, HandleUrl;
    var i := FirstMatch(rule, str, 0);
    var j := MatchEnd(rule, str, i);
    HarmlessPair(("", ""), []);
    match rule
    case IrcColor => ColorIsHarmless(str, i);
    case ChannelName => ChannelIsHarmless(str, i);
    case Link => LinkIsPlain(str, i);
    case Url => UrlIsPlain(str, i);
    case _ =>
  }

  lemma ColorIsHarmless(str: string, i: nat)
    requires i <= |str| && MatchEnd(IrcColor, str, i) > i
    ensures AllHarmless([("class", ColorClass(str[i..MatchEnd(IrcColor, str, i)]))])
  {
    ColorMatch(str, i);
    hide Harmless, AllHarmless, ColorClass, MatchEnd;
    var captured := str[i..MatchEnd(IrcColor, str, i)];
    ColorIsQuoted(captured);
    NoDollar(ColorClass(captured));
    HarmlessPair(("class", ColorClass(captured)), []);
    assert [("class", ColorClass(captured))] + [] == [("class", ColorClass(captured))];
  }

  lemma ChannelIsHarmless(str: string, i: nat)
    requires i <= |str| && MatchEnd(ChannelName, str, i) > i
    ensures Handle(ChannelName, str, i).Cut? && AllHarmless(Handle(ChannelName, str, i).attrs)
  {
    ChannelCharacters(str, i);
    hide Harmless, AllHarmless, EncodeChannel;
    var captured := str[i..MatchEnd(ChannelName, str, i)];
    var name := if IsSpace(captured[0]) then captured[1..] else captured;
    EncodedIsQuoted(name);
    NoDollar("./" + EncodeChannel(name));
    HarmlessPair(("href", "./" + EncodeChannel(name)), []);
    assert [("href", "./" + EncodeChannel(name))] + [] == [("href", "./" + EncodeChannel(name))];
  }

  lemma LinkIsPlain(str: string, i: nat)
    requires i <= |str| && MatchEnd(Link, str, i) > i
    ensures Handle(Link, str, i).Cut? && (AllHarmless(Handle(Link, str, i).attrs) <==> Plain(LinkTargetAt(str, i)))
  {
    hide AllHarmless, Plain, Escape, RunEnd, HasScheme;
    var target := LinkTargetAt(str, i);
    HrefIsPlain(target, HasScheme(target));
    hide MatchEnd;
  }

  lemma UrlIsPlain(str: string, i: nat)
    requires i <= |str| && MatchEnd(Url, str, i) > i
    ensures Handle(Url, str, i).Cut? && (AllHarmless(Handle(Url, str, i).attrs) <==> Plain(UrlAt(str, i)))
  {
    hide AllHarmless, Plain, Escape, RunEnd, LinkOf, BareLink;
    var target := UrlAt(str, i);
    HrefIsPlain(target, true);
    assert [("href", Escape(target))] + [("target", "_blank")] == [("href", Escape(target)), ("target", "_blank")];
  }

  ghost predicate AllPlain(targets: seq<string>) { forall t :: t in targets ==> Plain(t) }

  lemma AllPlainConcat(a: seq<string>, b: seq<string>)
    ensures AllPlain(a + b) <==> AllPlain(a) && AllPlain(b)
  {
    hide Plain;
    assert forall t :: t in a + b <==> t in a || t in b;
  }

  lemma OnePlain(t: string)
    ensures (AllPlain([t]) <==> Plain(t)) && AllPlain([])
  {
  }

  /** The tree of a message is harmless exactly when its links are plain. */
  lemma {:induction false} TreeIsPlain(str: string, nested: bool, top: bool)
    ensures NodeHarmless(MakeTag(str, nested, top)) <==> AllPlain(LinkTargets(str, nested, top))
    decreases |str|, if nested then 1 else 0, 1, 0
  {
    hide AllPlain, TryRules, RuleTargets;
    if top && "> " <= str {
      TreeIsPlain(str[2..], nested, false);
    } else {
      RulesArePlain(str, nested, 0);
    }
  }

  lemma {:induction false} RulesArePlain(str: string, nested: bool, r: nat)
    requires r <= |RULES|
    ensures NodeHarmless(TryRules(str, nested, r)) <==> AllPlain(RuleTargets(str, nested, r))
    decreases |str|, if nested then 1 else 0, 0, |RULES| - r
  {
    hide Apply, AllHarmless, AllPlain, Plain, TargetOf;
    OnePlain("");
    if nested && r < |RULES| {
      ApplyShrinks(RULES[r], str);
      match Apply(RULES[r], str)
      case Declined(text) => RulesArePlain(text, nested, r + 1);
      case Cut(before, names, attrs, content, inner, after) =>
        CutIsPlain(RULES[r], str);
        if before != "" { TreeIsPlain(before, nested, false); }
        TreeIsPlain(content, inner, false);
        if after != "" { TreeIsPlain(after, nested, false); }
        PartsArePlain(str, before, names, attrs, content, inner, after, nested, r);
    }
  }

  /** A cut is harmless when its tag and its parts are. */
  lemma PartsArePlain(str: string, before: string, names: seq<string>, attrs: Attrs, content: string,
                      inner: bool, after: string, nested: bool, r: nat)
    requires nested && r < |RULES| && Apply(RULES[r], str) == Cut(before, names, attrs, content, inner, after)
    requires AllHarmless(attrs) <==> TargetOf(RULES[r], str).None? || Plain(TargetOf(RULES[r], str).value)
    requires before != "" ==>
      (NodeHarmless(MakeTag(before, nested, false)) <==> AllPlain(LinkTargets(before, nested, false)))
    requires NodeHarmless(MakeTag(content, inner, false)) <==> AllPlain(LinkTargets(content, inner, false))
    requires after != "" ==>
      (NodeHarmless(MakeTag(after, nested, false)) <==> AllPlain(LinkTargets(after, nested, false)))
    ensures NodeHarmless(TryRules(str, nested, r)) <==> AllPlain(RuleTargets(str, nested, r))
  {
    hide Apply, AllHarmless, AllPlain, Plain, TargetOf, MakeTag, LinkTargets;
    ApplyShrinks(RULES[r], str);
    var b := if before != "" then [MakeTag(before, nested, false)] else [];
    var m := Tag(names, attrs, MakeTag(content, inner, false));
    var e := if after != "" then [MakeTag(after, nested, false)] else [];
    assert TryRules(str, nested, r) == Group(b + [m] + e);
    GroupOfParts(b, m, e);
    var own := if TargetOf(RULES[r], str).Some? then [TargetOf(RULES[r], str).value] else [];
    var tb := if before != "" then LinkTargets(before, nested, false) else [];
    var te := if after != "" then LinkTargets(after, nested, false) else [];
    var tc := LinkTargets(content, inner, false);
    assert RuleTargets(str, nested, r) == tb + own + tc + te;
    AllPlainConcat(tb + own + tc, te);
    AllPlainConcat(tb + own, tc);
    AllPlainConcat(tb, own);
    OnePlain(if TargetOf(RULES[r], str).Some? then TargetOf(RULES[r], str).value else "");
  }

  lemma GroupOfParts(b: seq<Node>, m: Node, e: seq<Node>)
    requires |b| <= 1 && |e| <= 1
    ensures NodeHarmless(Group(b + [m] + e)) <==>
      (b != [] ==> NodeHarmless(b[0])) && NodeHarmless(m) && (e != [] ==> NodeHarmless(e[0]))
  {
    var all := b + [m] + e;
    assert forall n :: n in all <==> n in b || n == m || n in e;
    assert forall n :: n in b <==> b != [] && n == b[0];
    assert forall n :: n in e <==> e != [] && n == e[0];
  }

  /** The central law of the formatter, for every message: reading the HTML gives
      the text of the tree if and only if every link target and URL in the message
      is plain, and the HTML is rejected otherwise; the text is a subsequence of the
      message; and without a dollar sign in the message nothing can go wrong. */
  lemma FormatLaw(str: string)
    ensures var tree := MakeTag(str, true, true);
      && Read(ToHtml(tree), []) == (if AllPlain(LinkTargets(str, true, true)) then Some(LeafText(tree)) else None)
      && Sub(LeafText(tree), str)
      && ('$' !in str ==> AllPlain(LinkTargets(str, true, true)))
  {
    hide MakeTag, Sub, AllPlain, LinkTargets;
    var tree := MakeTag(str, true, true);
    TreeIsOk(str, true, true);
    TreeIsPlain(str, true, true);
    TextIsKept(str, true, true);
    ReadNode(tree, "", []);
    assert ToHtml(tree) + "" == ToHtml(tree);
    assert LeafText(tree) + "" == LeafText(tree);
  }

  // ---------------------------------------------------------------------
  // Messages that are rejected
  // ---------------------------------------------------------------------

  predicate IsMark(c: char) {
    c == '`' || c == '*' || c == COLOR || c == BOLD || c == ITALIC || c == STRIKE || c == UNDERLINE || c == MONOSPACE
  }

  /** The six rules before the one for links need a mark. */
  lemma {:induction false} NoMarkNoMatch(rule: Rule, s: string, i: nat)
    requires rule in RULES[..6] && i <= |s| && forall k :: 0 <= k < |s| ==> !IsMark(s[k])
    ensures FirstMatch(rule, s, i) == |s|
    decreases |s| - i
  {
    hide RunEnd, TwoDigits, MatchEnd;
    if i < |s| {
      NoMarkHere(rule, s, i);
      NoMarkNoMatch(rule, s, i + 1);
    }
  }

  lemma StartsWith(s: string, i: nat, pat: string)
    requires pat != "" && StartsAt(s, i, pat)
    ensures s[i] == pat[0]
  {
    assert s[i..i + |pat|][0] == s[i];
  }

  lemma NoMarkHere(rule: Rule, s: string, i: nat)
    requires rule in RULES[..6] && i < |s| && !IsMark(s[i])
    ensures MatchEnd(rule, s, i) == i
  {
    hide RunEnd, TwoDigits, StartsAt;
    if StartsAt(s, i, "`") { StartsWith(s, i, "`"); }
    if StartsAt(s, i, "***") { StartsWith(s, i, "***"); }
    if StartsAt(s, i, "**") { StartsWith(s, i, "**"); }
    if StartsAt(s, i, "*") { StartsWith(s, i, "*"); }
    if StartsAt(s, i, [COLOR]) { StartsWith(s, i, [COLOR]); }
  }

  lemma LinkMatches(t: string)
    requires t != "" && ')' !in t
    ensures var s := "[a](" + t + ")";
      && FirstMatch(Link, s, 0) == 0 && MatchEnd(Link, s, 0) == |s| && RunEnd(s, 1, |s|, NonBracket) == 2
  {
    var s := "[a](" + t + ")";
    assert s[0] == '[' && s[1] == 'a' && s[2] == ']' && s[3] == '(' && s[|s| - 1] == ')';
    assert forall k :: 4 <= k < |s| - 1 ==> s[k] == t[k - 4];
    RunToParen(s, 4);
    RunToBracket(s);
    hide RunEnd;
    LinkFrom(s);
    hide MatchEnd;
  }

  lemma RunToBracket(s: string)
    requires |s| > 2 && s[1] == 'a' && s[2] == ']'
    ensures RunEnd(s, 1, |s|, NonBracket) == 2
  {
    assert RunEnd(s, 2, |s|, NonBracket) == 2;
  }

  lemma LinkFrom(s: string)
    requires |s| > 5 && s[0] == '[' && s[2] == ']' && s[3] == '(' && s[|s| - 1] == ')'
    requires RunEnd(s, 1, |s|, NonBracket) == 2 && RunEnd(s, 4, |s|, NonParen) == |s| - 1
    ensures MatchEnd(Link, s, 0) == |s|
  {
    hide RunEnd;
    assert s[0..1] == "[" && s[2..4] == "](" && s[|s| - 1..|s|] == ")";
  }

  lemma {:induction false} RunToParen(s: string, i: nat)
    requires i < |s| && s[|s| - 1] == ')' && forall k :: i <= k < |s| - 1 ==> s[k] != ')'
    ensures RunEnd(s, i, |s|, NonParen) == |s| - 1
    decreases |s| - i
  {
    if i < |s| - 1 { RunToParen(s, i + 1); }
  }

  /** A message that is just a link comes out as HTML that a strict reader rejects
      exactly when its target is not plain. */
  lemma LinkIsRejected(t: string)
    requires t != "" && ')' !in t && forall k :: 0 <= k < |t| ==> !IsMark(t[k])
    ensures var s := "[a](" + t + ")";
      Read(ToHtml(MakeTag(s, true, true)), []) == None <==> !Plain(t)
  {
    hide Plain, Read, MakeTag, ToHtml, LeafText, Sub;
    var s := "[a](" + t + ")";
    OneTarget(s, t);
    OnePlain(t);
    FormatLaw(s);
  }

  lemma OneTarget(s: string, t: string)
    requires s == "[a](" + t + ")" && t != "" && ')' !in t && forall k :: 0 <= k < |t| ==> !IsMark(t[k])
    ensures LinkTargets(s, true, true) == [t]
  {
    hide RunEnd, MatchEnd, Escape, HasScheme;
    forall k | 0 <= k < |s| ensures !IsMark(s[k]) { if 4 <= k < |s| - 1 { assert s[k] == t[k - 4]; } }
    forall r | 0 <= r < 6 ensures Apply(RULES[r], s) == Declined(s) { NoMarkNoMatch(RULES[r], s, 0); }
    LinkMatches(t);
    assert s[4..|s| - 1] == t && s[..0] == "" && s[|s|..] == "";
    assert Apply(Link, s).Cut? && TargetOf(Link, s) == Some(t);
    hide Apply, TargetOf, FirstMatch;
    LinkComesAlone(s, t);
  }

  lemma LinkComesAlone(s: string, t: string)
    requires forall r :: 0 <= r < 6 ==> Apply(RULES[r], s) == Declined(s)
    requires s != "" && s[0] == '[' && Apply(RULES[6], s).Cut? && TargetOf(RULES[6], s) == Some(t)
    requires var c := Apply(RULES[6], s); c.before == "" && c.after == "" && !c.nested
    ensures LinkTargets(s, true, true) == [t]
  {
    hide Apply, TargetOf;
    assert !("> " <= s);
    var c := Apply(RULES[6], s);
    assert LinkTargets(c.content, false, false) == [];
    assert RuleTargets(s, true, 6) == [t];
    assert RuleTargets(s, true, 5) == [t];
    assert RuleTargets(s, true, 4) == [t];
    assert RuleTargets(s, true, 3) == [t];
    assert RuleTargets(s, true, 2) == [t];
    assert RuleTargets(s, true, 1) == [t];
  }

  /** Such messages exist. */
  lemma DollarAmpersandIsRejected()
    ensures Read(ToHtml(MakeTag("[a]($&)", true, true)), []) == None
  {
    hide Read, MakeTag, ToHtml, IsMark;
    assert "[a](" + "$&" + ")" == "[a]($&)";
    assert !IsMark('$') && !IsMark('&') by { NoMarks(); }
    LinkIsRejected("$&");
  }

  lemma NoMarks()
    ensures !IsMark('$') && !IsMark('&')
  {
  }
}
