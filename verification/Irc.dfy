/** The IRC session of one connection: conversations with their rosters and
    modes, the NAMES batch, and the nick with its repair after a collision. The
    handlers are methods on the objects they change; each is proved against a
    function on the abstract session. */
module Irc {

  // ---------------------------------------------------------------------
  // Values
  // ---------------------------------------------------------------------

  datatype Participant = Participant(nick: string, mode: string, account: string, realname: string,
      user: string, host: string)

  type Roster = map<string, Participant>

  function LowerChar(c: char): char { if 'A' <= c <= 'Z' then c + 'a' - 'A' else c }

  function Lower(s: string): (r: string)
    ensures |r| == |s|
  {
    seq(|s|, i requires 0 <= i < |s| => LowerChar(s[i]))
  }

  predicate EqualFold(a: string, b: string) { Lower(a) == Lower(b) }

  /** The mode letter of a NAMES prefix, or none. */
  function PrefixMode(c: char): string {
    match c
    case '~' => "q"
    case '&' => "a"
    case '@' => "o"
    case '%' => "h"
    case '+' => "v"
    case _ => ""
  }

  function ParseNickMode(raw: string): (string, string) {
    if raw == "" || PrefixMode(raw[0]) == "" then ("", raw)
    else
      var (modes, nick) := ParseNickMode(raw[1..]);
      (PrefixMode(raw[0]) + modes, nick)
  }

  /** The loop over the prefixes of a NAMES entry. */
  method SkipPrefixes(raw: string) returns (modes: string, nick: string)
    ensures (modes, nick) == ParseNickMode(raw)
  {
    modes := "";
    assert raw[0..] == raw && "" + ParseNickMode(raw).0 == ParseNickMode(raw).0;
    for i := 0 to |raw|
      invariant ParseNickMode(raw) == (modes + ParseNickMode(raw[i..]).0, ParseNickMode(raw[i..]).1)
    {
      assert raw[i..][0] == raw[i] && raw[i..][1..] == raw[i + 1..];
      var mode := PrefixMode(raw[i]);
      if mode == "" {
        assert modes + "" == modes;
        return modes, raw[i..];
      }
      assert modes + (mode + ParseNickMode(raw[i + 1..]).0) == modes + mode + ParseNickMode(raw[i + 1..]).0;
      modes := modes + mode;
    }
    assert raw[|raw|..] == "" && modes + "" == modes;
    nick := "";
  }

  /** strings.Cut: around the first occurrence of a separator. */
  function CutAt(s: string, sep: char): (string, string) {
    if s == "" then ("", "")
    else if s[0] == sep then ("", s[1..])
    else
      var (front, back) := CutAt(s[1..], sep);
      ([s[0]] + front, back)
  }

  function ParseNamesEntry(raw: string): Participant {
    var (mode, rest) := ParseNickMode(raw);
    var (nick, userhost) := CutAt(rest, '!');
    var (user, host) := CutAt(userhost, '@');
    Participant(nick, mode, "", "", user, host)
  }

  // ---------------------------------------------------------------------
  // The abstract session
  // ---------------------------------------------------------------------

  /** Rosters and open NAMES batches by lower-case channel name; until the server
      has given us a nick, the one of the URL stands for it. */
  datatype Session = Session(
    nick: string, urlNick: string, rosters: map<string, Roster>, names: map<string, seq<Participant>>)

  function EffectiveNick(s: Session): string { if s.nick != "" then s.nick else s.urlNick }

  function RosterOf(s: Session, id: string): Roster { if id in s.rosters then s.rosters[id] else map[] }

  function Joined(s: Session, channel: string, p: Participant): Session {
    s.(rosters := s.rosters[Lower(channel) := RosterOf(s, Lower(channel))[p.nick := p]])
  }

  function Left(s: Session, channel: string, nick: string): Session {
    var id := Lower(channel);
    if nick == EffectiveNick(s) then s.(rosters := s.rosters - {id})
    else if id in s.rosters then s.(rosters := s.rosters[id := s.rosters[id] - {nick}])
    else s
  }

  function Quit(s: Session, nick: string): Session {
    s.(rosters := map id | id in s.rosters :: s.rosters[id] - {nick})
  }

  /** The new entry is added before the old one is removed. */
  function Renamed(roster: Roster, oldNick: string, newNick: string): Roster {
    if oldNick in roster then roster[newNick := roster[oldNick].(nick := newNick)] - {oldNick} else roster
  }

  function NickChanged(s: Session, oldNick: string, newNick: string): Session {
    Session(if oldNick == EffectiveNick(s) then newNick else s.nick, s.urlNick,
            map id | id in s.rosters :: Renamed(s.rosters[id], oldNick, newNick), s.names)
  }

  function Listed(roster: Roster, entries: seq<string>): Roster {
    if entries == [] then roster
    else
      var p := ParseNamesEntry(entries[|entries| - 1]);
      Listed(roster, entries[..|entries| - 1])[p.nick := p]
  }

  function Parsed(entries: seq<string>): seq<Participant> {
    seq(|entries|, i requires 0 <= i < |entries| => ParseNamesEntry(entries[i]))
  }

  function BatchOf(s: Session, id: string): seq<Participant> { if id in s.names then s.names[id] else [] }

  lemma OneRoster(before: map<string, Roster>, after: map<string, Roster>, id: string)
    requires id in after && after.Keys == before.Keys + {id}
    requires forall i :: i in before && i != id ==> after[i] == before[i]
    ensures after == before[id := after[id]]
  {
  }

  function NamesListed(s: Session, channel: string, entries: seq<string>): Session {
    var id := Lower(channel);
    s.(rosters := s.rosters[id := Listed(RosterOf(s, id), entries)],
       names := if entries == [] then s.names else s.names[id := BatchOf(s, id) + Parsed(entries)])
  }

  function NamesEnded(s: Session, channel: string): Session { s.(names := s.names - {Lower(channel)}) }

  ghost predicate BatchIs(first: map<string, seq<Participant>>, id: string, entries: seq<string>,
      names: map<string, seq<Participant>>) {
    names == if entries == [] then first else first[id := (if id in first then first[id] else []) + Parsed(entries)]
  }

  lemma BatchGrows(first: map<string, seq<Participant>>, id: string, entries: seq<string>, i: nat,
      names: map<string, seq<Participant>>)
    requires i < |entries| && BatchIs(first, id, entries[..i], names)
    ensures BatchIs(first, id, entries[..i + 1],
                    names[id := (if id in names then names[id] else []) + [ParseNamesEntry(entries[i])]])
  {
    hide ParseNamesEntry;
    var p, batch := ParseNamesEntry(entries[i]), if id in first then first[id] else [];
    assert Parsed(entries[..i + 1]) == Parsed(entries[..i]) + [p];
    assert batch + Parsed(entries[..i + 1]) == batch + Parsed(entries[..i]) + [p];
    if i == 0 {
      assert Parsed(entries[..0]) == [] && batch + [] == batch;
    }
  }

  lemma ListedNone(roster: Roster)
    ensures Listed(roster, []) == roster
  {
  }

  lemma ListedOne(roster: Roster, entries: seq<string>, i: nat)
    requires i < |entries|
    ensures var p := ParseNamesEntry(entries[i]);
      Listed(roster, entries[..i + 1]) == Listed(roster, entries[..i])[p.nick := p]
  {
    hide ParseNamesEntry;
    assert entries[..i + 1][..i] == entries[..i] && entries[..i + 1][i] == entries[i];
  }

  // ---------------------------------------------------------------------
  // Modes
  // ---------------------------------------------------------------------

  /** One mode letter with its sign. */
  datatype Signed = Signed(add: bool, mode: char)

  datatype UserChange = UserChange(add: bool, mode: char, nick: string)

  const USER_MODES := "ovhaq"
  const CHANNEL_MODE_NAMES: map<char, string> :=
    map['i' := "invite_only", 'm' := "moderated", 'k' := "password",
        'n' := "prevent_external_send", 't' := "topic_protection"]

  predicate IsSign(c: char) { c == '+' || c == '-' }

  /** The signed letters of a mode string, after a given sign. */
  function SignedModes(modes: string, add: bool): seq<Signed> {
    if modes == "" then []
    else if IsSign(modes[0]) then SignedModes(modes[1..], modes[0] == '+')
    else [Signed(add, modes[0])] + SignedModes(modes[1..], add)
  }

  function ApplyModes(modes: map<string, bool>, changes: seq<Signed>): map<string, bool>
    decreases changes
  {
    if changes == [] then modes
    else
      var c := changes[0];
      var next := if c.mode in CHANNEL_MODE_NAMES then modes[CHANNEL_MODE_NAMES[c.mode] := c.add] else modes;
      ApplyModes(next, changes[1..])
  }

  /** The sign in force after the first `n` letters. */
  function SignAt(modes: string, n: nat): bool
    requires n <= |modes|
  {
    n == 0 || modes[n - 1] == '+' || (modes[n - 1] != '-' && SignAt(modes, n - 1))
  }

  predicate TakesArg(mode: char, add: bool) {
    mode in USER_MODES || mode == 'k' || (mode == 'l' && add) || mode == 'b' || mode == 'e' || mode == 'I'
  }

  /** How many of the first `n` letters ask for an argument. */
  function Takers(modes: string, n: nat): nat
    requires n <= |modes|
  {
    if n == 0 then 0
    else Takers(modes, n - 1) + if !IsSign(modes[n - 1]) && TakesArg(modes[n - 1], SignAt(modes, n - 1)) then 1 else 0
  }

  /** A user letter is one only as long as arguments last. */
  predicate UserAt(modes: string, args: seq<string>, i: nat)
    requires i < |modes|
  {
    modes[i] in USER_MODES && Takers(modes, i) < |args|
  }

  /** Each user letter with its sign and the argument of its own rank. */
  function UserChanges(modes: string, args: seq<string>, n: nat): seq<UserChange>
    requires n <= |modes|
  {
    if n == 0 then []
    else UserChanges(modes, args, n - 1)
         + if UserAt(modes, args, n - 1)
           then [UserChange(SignAt(modes, n - 1), modes[n - 1], args[Takers(modes, n - 1)])] else []
  }

  /** All other letters with their signs. */
  function ChannelChanges(modes: string, args: seq<string>, n: nat): seq<Signed>
    requires n <= |modes|
  {
    if n == 0 then []
    else ChannelChanges(modes, args, n - 1)
         + if !IsSign(modes[n - 1]) && !UserAt(modes, args, n - 1)
           then [Signed(SignAt(modes, n - 1), modes[n - 1])] else []
  }

  /** Signed letters as a mode string that names a sign only when it changes. */
  function Compress(changes: seq<Signed>): string {
    if changes == [] then ""
    else
      var front, c := changes[..|changes| - 1], changes[|changes| - 1];
      var sign := if front != [] && front[|front| - 1].add == c.add then "" else if c.add then "+" else "-";
      Compress(front) + sign + [c.mode]
  }

  // ---------------------------------------------------------------------
  // The nick
  // ---------------------------------------------------------------------

  /** The nick, the base of a running repair ("" for none), and the NICK commands
      sent so far. */
  datatype NickState = NickState(nick: string, fixBase: string, sent: seq<string>)

  function Registered(s: NickState, current: string, urlNick: string): NickState {
    var desired := if s.nick != "" then s.nick else urlNick;
    if EqualFold(current, desired) then s.(nick := current)
    else NickState(current, desired, s.sent + [desired + "_"])
  }

  function Collided(s: NickState, attempted: string): NickState {
    if s.nick == "" then s.(sent := s.sent + [attempted + "_"])
    else if s.fixBase != "" && EqualFold(attempted, s.fixBase + "_") then
      s.(fixBase := attempted, sent := s.sent + [attempted + "_"])
    else s
  }

  function OwnNickChanged(s: NickState, newNick: string): NickState { s.(nick := newNick, fixBase := "") }

  /** The loop of handleMode over the letters. */
  method SplitModes(modeStr: string, args: seq<string>) returns (userChanges: seq<UserChange>, channelModes: string)
    ensures userChanges == UserChanges(modeStr, args, |modeStr|)
    ensures channelModes == Compress(ChannelChanges(modeStr, args, |modeStr|))
  {
    hide UserChanges, ChannelChanges, Takers, SignAt, Compress, UserAt, TakesArg;
    NoLetters(modeStr, args);
    var argIdx := 0;
    var add := true;
    channelModes, userChanges := "", [];
    var lastSign := ' ';
    ghost var changes: seq<Signed> := [];
    for i := 0 to |modeStr|
      invariant add == SignAt(modeStr, i)
      invariant argIdx == if Takers(modeStr, i) < |args| then Takers(modeStr, i) else |args|
      invariant userChanges == UserChanges(modeStr, args, i)
      invariant changes == ChannelChanges(modeStr, args, i) && channelModes == Compress(changes)
      invariant lastSign == if changes == [] then ' ' else if changes[|changes| - 1].add then '+' else '-'
    {
      var ch := modeStr[i];
      OneLetter(modeStr, args, i);
      if ch == '+' || ch == '-' {
        add := ch == '+';
        continue;
      }
      if ch in USER_MODES && argIdx < |args| {
        userChanges := userChanges + [UserChange(add, ch, args[argIdx])];
        argIdx := argIdx + 1;
        continue;
      }
      CompressOne(changes, Signed(add, ch));
      var sign := if add then '+' else '-';
      if sign != lastSign {
        channelModes := channelModes + [sign];
        lastSign := sign;
      }
      channelModes := channelModes + [ch];
      changes := changes + [Signed(add, ch)];
      if (ch == 'k' || (ch == 'l' && add) || ch == 'b' || ch == 'e' || ch == 'I') && argIdx < |args| {
        argIdx := argIdx + 1;
      }
    }
  }

  lemma NoLetters(modes: string, args: seq<string>)
    ensures SignAt(modes, 0) && Takers(modes, 0) == 0 && Compress([]) == ""
    ensures UserChanges(modes, args, 0) == [] && ChannelChanges(modes, args, 0) == []
  {
  }

  /** What letter `i` adds to each part. */
  lemma OneLetter(modes: string, args: seq<string>, i: nat)
    requires i < |modes|
    ensures var ch, add, rank := modes[i], SignAt(modes, i), Takers(modes, i);
      var user := ch in USER_MODES && rank < |args|;
      var takes := ch in USER_MODES || ch == 'k' || (ch == 'l' && add) || ch == 'b' || ch == 'e' || ch == 'I';
      && SignAt(modes, i + 1) == (if IsSign(ch) then ch == '+' else add)
      && Takers(modes, i + 1) == rank + (if !IsSign(ch) && takes then 1 else 0)
      && UserChanges(modes, args, i + 1) ==
        UserChanges(modes, args, i) + (if user then [UserChange(add, ch, args[rank])] else [])
      && ChannelChanges(modes, args, i + 1)
         == ChannelChanges(modes, args, i) + (if !IsSign(ch) && !user then [Signed(add, ch)] else [])
  {
  }

  lemma CompressOne(changes: seq<Signed>, c: Signed)
    ensures Compress(changes + [c]) ==
      Compress(changes) +
      (if changes != [] && changes[|changes| - 1].add == c.add then "" else if c.add then "+" else "-") + [c.mode]
  {
    assert (changes + [c])[..|changes|] == changes;
  }

  // ---------------------------------------------------------------------
  // Conversations
  // ---------------------------------------------------------------------

  class Conversation {
    var participants: Roster
    var modes: map<string, bool>

    constructor ()
      ensures participants == map[] && modes == map[]
    {
      participants := map[];
      modes := map[];
    }

    method AddParticipant(p: Participant)
      modifies this`participants
      ensures participants == old(participants)[p.nick := p]
    {
      participants := participants[p.nick := p];
    }

    method RemoveParticipant(nick: string)
      modifies this`participants
      ensures participants == old(participants) - {nick}
    {
      participants := participants - {nick};
    }

    method Rename(oldNick: string, newNick: string)
      modifies this`participants
      ensures participants == Renamed(old(participants), oldNick, newNick)
    {
      if oldNick in participants {
        var p := participants[oldNick].(nick := newNick);
        AddParticipant(p);
        RemoveParticipant(oldNick);
      }
    }

    /** Merges a mode string into the tracked modes. */
    method UpdateModes(modeStr: string)
      modifies this`modes
      ensures modes == ApplyModes(old(modes), SignedModes(modeStr, true))
    {
      var add := true;
      assert modeStr[0..] == modeStr;
      for i := 0 to |modeStr|
        invariant ApplyModes(modes, SignedModes(modeStr[i..], add)) ==
          ApplyModes(old(modes), SignedModes(modeStr, true))
      {
        var ch := modeStr[i];
        assert modeStr[i..][0] == ch && modeStr[i..][1..] == modeStr[i + 1..];
        if ch == '+' {
          add := true;
        } else if ch == '-' {
          add := false;
        } else {
          ghost var rest := SignedModes(modeStr[i + 1..], add);
          assert ([Signed(add, ch)] + rest)[1..] == rest;
          if ch in CHANNEL_MODE_NAMES {
            modes := modes[CHANNEL_MODE_NAMES[ch] := add];
          }
        }
      }
      assert modeStr[|modeStr|..] == "";
    }
  }

  // ---------------------------------------------------------------------
  // The connection
  // ---------------------------------------------------------------------

  class Connection {
    var nick: string
    var nickFixBase: string
    var conversations: map<string, Conversation>
    var namesBuffer: map<string, seq<Participant>>
    var sent: seq<string> // NICK commands
    const urlNick: string

    /** No two ids share a conversation. */
    ghost predicate Valid()
      reads this
    {
      forall a, b :: a in conversations && b in conversations && a != b ==> conversations[a] != conversations[b]
    }

    ghost function Abs(): Session
      reads this, conversations.Values
    {
      Session(nick, urlNick, map id | id in conversations :: conversations[id].participants, namesBuffer)
    }

    ghost function Nicks(): NickState
      reads this
    {
      NickState(nick, nickFixBase, sent)
    }

    constructor (urlNick: string)
      ensures Valid() && Abs() == Session("", urlNick, map[], map[]) && Nicks() == NickState("", "", [])
        && this.urlNick == urlNick
    {
      this.urlNick := urlNick;
      nick, nickFixBase, conversations, namesBuffer, sent := "", "", map[], map[], [];
    }

    function Nick(): (r: string)
      reads this
      ensures r == nick || (nick == "" && r == urlNick)
    {
      if nick != "" then nick else urlNick
    }

    method GetOrCreate(channel: string) returns (conv: Conversation)
      requires Valid()
      modifies this`conversations
      ensures Valid() && Lower(channel) in conversations && conversations[Lower(channel)] == conv
      ensures forall id :: id in old(conversations) ==>
        id in conversations && conversations[id] == old(conversations)[id]
      ensures forall id :: id in conversations ==> id in old(conversations) || id == Lower(channel)
      ensures Lower(channel) !in old(conversations) ==> fresh(conv) && conv.participants == map[]
    {
      var id := Lower(channel);
      if id in conversations {
        conv := conversations[id];
      } else {
        conv := new Conversation();
        conversations := conversations[id := conv];
      }
    }

    /** Ignored senders are not added. The first two conditions of the handler
        lead to the same change of the roster for our own JOIN and for others'. */
    method HandleJoin(channel: string, p: Participant, ignored: bool)
      requires Valid()
      modifies this`conversations, conversations.Values
      ensures Valid() && Abs() == if ignored then old(Abs()) else Joined(old(Abs()), channel, p)
    {
      if ignored { return; }
      var conv := GetOrCreate(channel);
      conv.AddParticipant(p);
    }

    method HandlePart(channel: string, who: string, ignored: bool)
      requires Valid()
      modifies this`conversations, conversations.Values
      ensures Valid() && Abs() == if ignored then old(Abs()) else Left(old(Abs()), channel, who)
    {
      if ignored { return; }
      RemoveFrom(channel, who);
    }

    /** handleKick does not look at ignore masks. */
    method HandleKick(channel: string, target: string)
      requires Valid()
      modifies this`conversations, conversations.Values
      ensures Valid() && Abs() == Left(old(Abs()), channel, target)
    {
      RemoveFrom(channel, target);
    }

    method RemoveFrom(channel: string, who: string)
      requires Valid()
      modifies this`conversations, conversations.Values
      ensures Valid() && Abs() == Left(old(Abs()), channel, who)
    {
      var id := Lower(channel);
      if who == Nick() {
        conversations := conversations - {id};
      } else if id in conversations {
        conversations[id].RemoveParticipant(who);
      }
    }

    method HandleQuit(who: string)
      requires Valid()
      modifies conversations.Values
      ensures Valid() && Abs() == Quit(old(Abs()), who)
    {
      var todo := conversations.Keys;
      while todo != {}
        invariant todo <= conversations.Keys
        invariant forall id :: id in conversations ==>
          conversations[id].participants ==
          if id in todo then old(conversations[id].participants) else old(conversations[id].participants) - {who}
        decreases todo
      {
        var id :| id in todo;
        conversations[id].RemoveParticipant(who);
        todo := todo - {id};
      }
    }

    method HandleNick(oldNick: string, newNick: string, ignored: bool)
      requires Valid()
      modifies this`nick, this`nickFixBase, conversations.Values
      ensures Valid()
      ensures oldNick != old(Nick()) && ignored ==> Abs() == old(Abs())
      ensures oldNick == old(Nick()) || !ignored ==> Abs() == NickChanged(old(Abs()), oldNick, newNick)
      ensures Nicks() == if oldNick == old(Nick()) then OwnNickChanged(old(Nicks()), newNick) else old(Nicks())
      ensures oldNick == old(Nick()) ==> nick == newNick && nickFixBase == ""
    {
      if oldNick == Nick() {
        nick := newNick;
        nickFixBase := "";
      } else if ignored {
        return;
      }
      RenameEverywhere(oldNick, newNick);
    }

    /** The loop over the conversations. */
    method RenameEverywhere(oldNick: string, newNick: string)
      requires Valid()
      modifies conversations.Values
      ensures Valid() && Nicks() == old(Nicks())
      ensures forall id :: id in conversations ==>
        conversations[id].participants == Renamed(old(conversations[id].participants), oldNick, newNick)
    {
      hide Renamed;
      var todo := conversations.Keys;
      while todo != {}
        invariant todo <= conversations.Keys
        invariant forall id :: id in conversations ==>
          conversations[id].participants ==
          if id in todo then old(conversations[id].participants)
          else Renamed(old(conversations[id].participants), oldNick, newNick)
        decreases todo
      {
        var id :| id in todo;
        conversations[id].Rename(oldNick, newNick);
        todo := todo - {id};
      }
    }

    /** One 353 line: every entry joins the batch and the roster. */
    method HandleNamesReply(channel: string, entries: seq<string>)
      requires Valid()
      modifies this`conversations, this`namesBuffer, conversations.Values
      ensures Valid() && Abs() == NamesListed(old(Abs()), channel, entries)
    {
      hide Listed, Parsed;
      var id := Lower(channel);
      ghost var before := Abs();
      var conv := GetOrCreate(channel);
      AddEntries(conv, id, entries);
      OneRoster(before.rosters, Abs().rosters, id);
    }

    /** The loop over the entries. */
    method AddEntries(conv: Conversation, id: string, entries: seq<string>)
      modifies this`namesBuffer, conv`participants
      ensures conv.participants == Listed(old(conv.participants), entries)
      ensures namesBuffer ==
        if entries == [] then old(namesBuffer)
        else old(namesBuffer)[id := (if id in old(namesBuffer) then old(namesBuffer)[id] else []) + Parsed(entries)]
    {
      hide ParseNamesEntry, Listed, Parsed;
      ghost var names, roster := namesBuffer, conv.participants;
      ListedNone(roster);
      assert entries[..0] == [] && entries[..|entries|] == entries;
      for i := 0 to |entries|
        invariant conv.participants == Listed(roster, entries[..i])
        invariant BatchIs(names, id, entries[..i], namesBuffer)
      {
        var p := ParseNamesEntry(entries[i]);
        ListedOne(roster, entries, i);
        BatchGrows(names, id, entries, i, namesBuffer);
        var batch := if id in namesBuffer then namesBuffer[id] else [];
        namesBuffer := namesBuffer[id := batch + [p]];
        conv.AddParticipant(p);
      }
    }

    /** The 366 numeric hands out the batch and forgets it. */
    method HandleEndOfNames(channel: string) returns (participants: seq<Participant>)
      requires Valid()
      modifies this`namesBuffer
      ensures Valid() && participants == BatchOf(old(Abs()), Lower(channel)) && Abs() == NamesEnded(old(Abs()), channel)
    {
      var id := Lower(channel);
      participants := if id in namesBuffer then namesBuffer[id] else [];
      namesBuffer := namesBuffer - {id};
    }

    /** A channel MODE line: user letters become events of their own, all others
        one compressed mode string for the conversation. */
    method HandleMode(channel: string, modeStr: string, args: seq<string>)
      returns (userChanges: seq<UserChange>, channelModes: string)
      requires Valid()
      modifies conversations.Values
      ensures userChanges == UserChanges(modeStr, args, |modeStr|)
      ensures channelModes == Compress(ChannelChanges(modeStr, args, |modeStr|))
      ensures Abs() == old(Abs())
      ensures Lower(channel) in conversations && channelModes != "" ==>
        conversations[Lower(channel)].modes ==
          ApplyModes(old(conversations[Lower(channel)].modes), SignedModes(channelModes, true))
      ensures forall id :: id in conversations && (id != Lower(channel) || channelModes == "") ==>
        conversations[id].modes == old(conversations[id].modes)
    {
      hide UserChanges, ChannelChanges, Compress, ApplyModes, SignedModes;
      userChanges, channelModes := SplitModes(modeStr, args);
      var id := Lower(channel);
      if channelModes != "" && id in conversations {
        conversations[id].UpdateModes(channelModes);
      }
    }

    /** The connect callback: the server may have assigned another nick. */
    method OnConnected(currentNick: string)
      modifies this`nick, this`nickFixBase, this`sent
      ensures Nicks() == Registered(old(Nicks()), currentNick, urlNick) && nick == currentNick
      ensures EqualFold(currentNick, old(Nick())) ==> nickFixBase == old(nickFixBase) && sent == old(sent)
      ensures !EqualFold(currentNick, old(Nick())) ==>
        nickFixBase == old(Nick()) && sent == old(sent) + [old(Nick()) + "_"]
    {
      var desired := Nick();
      nick := currentNick;
      if !EqualFold(currentNick, desired) {
        nickFixBase := desired;
        sent := sent + [desired + "_"];
      }
    }

    /** 433, with the nick it names, or ours when it names none. */
    method HandleNickInUse(named: string)
      modifies this`nickFixBase, this`sent
      ensures Nicks() == Collided(old(Nicks()), if named != "" then named else old(Nick())) && nick == old(nick)
      ensures var attempted := if named != "" then named else old(Nick());
        var due := nick != "" && old(nickFixBase) != "" && EqualFold(attempted, old(nickFixBase) + "_");
        && sent == (if nick == "" || due then old(sent) + [attempted + "_"] else old(sent))
        && nickFixBase == if due then attempted else old(nickFixBase)
    {
      var attempted := if named != "" then named else Nick();
      if nick == "" {
        sent := sent + [attempted + "_"];
      } else if nickFixBase != "" && EqualFold(attempted, nickFixBase + "_") {
        nickFixBase := attempted;
        sent := sent + [attempted + "_"];
      }
    }
  }
}
