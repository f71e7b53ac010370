/** What the IRC session promises over whole runs: rosters follow the server's
    membership, mode strings keep their meaning when they are taken apart and put
    together again, and the nick repair makes progress and knows when to stop. */
module IrcLaws {
  import opened Irc

  // ---------------------------------------------------------------------
  // The server's side of a session
  // ---------------------------------------------------------------------

  /** Our nick, the members of every channel we are in, and for each channel
      with an open NAMES batch the members that no line has listed yet. */
  datatype Server = Server(me: string, members: map<string, set<string>>, pending: map<string, set<string>>)

  datatype Message =
    | JoinSelf(channel: string, p: Participant, others: set<string>)
    | JoinOther(channel: string, p: Participant)
    | Part(channel: string, nick: string)
    | Kick(channel: string, nick: string)
    | QuitServer(nick: string)
    | NickChange(oldNick: string, newNick: string)
    | NamesLine(channel: string, entries: seq<string>)
    | NamesEnd(channel: string)

  predicate Member(sv: Server, channel: string, nick: string) {
    Lower(channel) in sv.members && nick in sv.members[Lower(channel)]
  }

  /** The messages a server may send: true ones, about channels we are in, and a
      366 only after its batch has listed every member. */
  ghost predicate MaySend(sv: Server, m: Message) {
    match m
    case JoinSelf(channel, p, others) => p.nick == sv.me && Lower(channel) !in sv.members
    case JoinOther(channel, p) =>
      Lower(channel) in sv.members && p.nick != sv.me && p.nick !in sv.members[Lower(channel)]
    case Part(channel, nick) => Member(sv, channel, nick)
    case Kick(channel, nick) => Member(sv, channel, nick)
    case QuitServer(nick) => nick != sv.me
    case NickChange(oldNick, newNick) =>
      && newNick != oldNick && newNick != "" && newNick != sv.me
      && forall id :: id in sv.members ==> newNick !in sv.members[id]
    case NamesLine(channel, entries) =>
      Lower(channel) in sv.members && forall e :: e in entries ==> Member(sv, channel, ParseNamesEntry(e).nick)
    case NamesEnd(channel) => Lower(channel) in sv.pending ==> sv.pending[Lower(channel)] == {}
  }

  function Without(sv: Server, channel: string, nick: string): Server {
    var id := Lower(channel);
    if nick == sv.me then sv.(members := sv.members - {id}, pending := sv.pending - {id})
    else if id !in sv.members then sv
    else sv.(members := sv.members[id := sv.members[id] - {nick}],
             pending := map i | i in sv.pending :: if i == id then sv.pending[i] - {nick} else sv.pending[i])
  }

  function Swap(s: set<string>, oldNick: string, newNick: string): set<string> {
    if oldNick in s then s - {oldNick} + {newNick} else s
  }

  function NicksOf(entries: seq<string>): set<string> { set e | e in entries :: ParseNamesEntry(e).nick }

  function ServerNext(sv: Server, m: Message): Server {
    match m
    case JoinSelf(channel, p, others) =>
      var all := others + {sv.me};
      sv.(members := sv.members[Lower(channel) := all], pending := sv.pending[Lower(channel) := all])
    case JoinOther(channel, p) =>
      var id := Lower(channel);
      if id in sv.members then sv.(members := sv.members[id := sv.members[id] + {p.nick}]) else sv
    case Part(channel, nick) => Without(sv, channel, nick)
    case Kick(channel, nick) => Without(sv, channel, nick)
    case QuitServer(nick) =>
      sv.(members := map id | id in sv.members :: sv.members[id] - {nick},
          pending := map id | id in sv.pending :: sv.pending[id] - {nick})
    case NickChange(oldNick, newNick) =>
      Server(if oldNick == sv.me then newNick else sv.me,
             map id | id in sv.members :: Swap(sv.members[id], oldNick, newNick),
             map id | id in sv.pending :: Swap(sv.pending[id], oldNick, newNick))
    case NamesLine(channel, entries) =>
      sv.(pending := map id | id in sv.pending ::
                       if id == Lower(channel) then sv.pending[id] - NicksOf(entries) else sv.pending[id])
    case NamesEnd(channel) => sv.(pending := sv.pending - {Lower(channel)})
  }

  /** The handler that each message reaches, without ignore masks. */
  function ClientNext(s: Session, m: Message): Session {
    match m
    case JoinSelf(channel, p, _) => Joined(s, channel, p)
    case JoinOther(channel, p) => Joined(s, channel, p)
    case Part(channel, nick) => Left(s, channel, nick)
    case Kick(channel, nick) => Left(s, channel, nick)
    case QuitServer(nick) => Quit(s, nick)
    case NickChange(oldNick, newNick) => NickChanged(s, oldNick, newNick)
    case NamesLine(channel, entries) => NamesListed(s, channel, entries)
    case NamesEnd(channel) => NamesEnded(s, channel)
  }

  // ---------------------------------------------------------------------
  // Rosters follow the membership
  // ---------------------------------------------------------------------

  function PendingOf(sv: Server, id: string): set<string> { if id in sv.pending then sv.pending[id] else {} }

  /** Only members, and all but those still to be listed; every key is the nick
      of its entry. */
  ghost predicate RosterOk(roster: Roster, members: set<string>, pending: set<string>) {
    && roster.Keys <= members && members - pending <= roster.Keys && pending <= members
    && forall k :: k in roster ==> roster[k].nick == k
  }

  ghost predicate InStep(sv: Server, s: Session) {
    && EffectiveNick(s) == sv.me
    && sv.pending.Keys <= sv.members.Keys
    && (forall id :: id in sv.members ==> id in s.rosters && RosterOk(s.rosters[id], sv.members[id], PendingOf(sv, id)))
    && (forall id :: id in s.rosters && id !in sv.members ==> s.rosters[id] == map[])
  }

  lemma {:induction false} ListedKeys(roster: Roster, entries: seq<string>)
    requires forall k :: k in roster ==> roster[k].nick == k
    ensures Listed(roster, entries).Keys == roster.Keys + NicksOf(entries)
    ensures forall k :: k in Listed(roster, entries) ==> Listed(roster, entries)[k].nick == k
  {
    hide ParseNamesEntry;
    if entries != [] {
      var front, last := entries[..|entries| - 1], entries[|entries| - 1];
      ListedKeys(roster, front);
      assert forall e :: e in entries <==> e in front || e == last;
    }
  }

  /** One more entry for one more member. */
  lemma EntryKeeps(roster: Roster, members: set<string>, pending: set<string>, p: Participant)
    requires RosterOk(roster, members, pending)
    ensures RosterOk(roster[p.nick := p], members + {p.nick}, pending)
  {
  }

  /** Changing one channel on both sides keeps the others in step. */
  lemma OneChannel(sv: Server, s: Session, id: string, roster: Roster, members: set<string>,
      pending: map<string, set<string>>)
    requires InStep(sv, s)
    requires pending.Keys <= sv.members.Keys + {id}
    requires forall i :: i != id ==>
      (i in pending <==> i in sv.pending) && (i in pending ==> pending[i] == sv.pending[i])
    requires RosterOk(roster, members, if id in pending then pending[id] else {})
    ensures InStep(sv.(members := sv.members[id := members], pending := pending),
      s.(rosters := s.rosters[id := roster]))
  {
    hide RosterOk;
    var sv', s' := sv.(members := sv.members[id := members], pending := pending),
      s.(rosters := s.rosters[id := roster]);
    forall i | i in sv'.members
      ensures i in s'.rosters && RosterOk(s'.rosters[i], sv'.members[i], PendingOf(sv', i))
    {
      if i != id { assert PendingOf(sv', i) == PendingOf(sv, i); }
    }
  }

  lemma JoinSelfKeeps(sv: Server, s: Session, m: Message)
    requires InStep(sv, s) && MaySend(sv, m) && m.JoinSelf?
    ensures InStep(ServerNext(sv, m), ClientNext(s, m))
  {
    hide Lower;
    var id, all := Lower(m.channel), m.others + {sv.me};
    assert RosterOf(s, id) == map[];
    OneChannel(sv, s, id, map[m.p.nick := m.p], all, sv.pending[id := all]);
  }

  lemma JoinOtherKeeps(sv: Server, s: Session, m: Message)
    requires InStep(sv, s) && MaySend(sv, m) && m.JoinOther?
    ensures InStep(ServerNext(sv, m), ClientNext(s, m))
  {
    hide Lower, RosterOk;
    var id := Lower(m.channel);
    EntryKeeps(s.rosters[id], sv.members[id], PendingOf(sv, id), m.p);
    OneChannel(sv, s, id, s.rosters[id][m.p.nick := m.p], sv.members[id] + {m.p.nick}, sv.pending);
  }

  /** One entry less for one member less. */
  lemma LossKeeps(roster: Roster, members: set<string>, pending: set<string>, nick: string)
    requires RosterOk(roster, members, pending)
    ensures RosterOk(roster - {nick}, members - {nick}, pending - {nick})
  {
  }

  lemma LeaveKeeps(sv: Server, s: Session, channel: string, nick: string)
    requires InStep(sv, s) && Member(sv, channel, nick)
    ensures InStep(Without(sv, channel, nick), Left(s, channel, nick))
  {
    hide Lower, RosterOk;
    var id := Lower(channel);
    if nick != sv.me {
      var pending := map i | i in sv.pending :: if i == id then sv.pending[i] - {nick} else sv.pending[i];
      LossKeeps(s.rosters[id], sv.members[id], PendingOf(sv, id), nick);
      assert var none: set<string> := {}; none - {nick} == none;
      OneChannel(sv, s, id, s.rosters[id] - {nick}, sv.members[id] - {nick}, pending);
    } else {
      OwnLeaveKeeps(sv, s, id);
    }
  }

  lemma LeaveStep(sv: Server, s: Session, m: Message, channel: string, nick: string)
    requires InStep(sv, s) && MaySend(sv, m) && (m == Part(channel, nick) || m == Kick(channel, nick))
    ensures InStep(ServerNext(sv, m), ClientNext(s, m))
  {
    hide InStep, Lower, Without, Left;
    LeaveKeeps(sv, s, channel, nick);
  }

  lemma OwnLeaveKeeps(sv: Server, s: Session, id: string)
    requires InStep(sv, s)
    ensures InStep(sv.(members := sv.members - {id}, pending := sv.pending - {id}), s.(rosters := s.rosters - {id}))
  {
    hide RosterOk;
    var sv' := sv.(members := sv.members - {id}, pending := sv.pending - {id});
    assert forall i :: i in sv'.members ==> i in sv.members && PendingOf(sv', i) == PendingOf(sv, i);
  }

  lemma QuitKeeps(sv: Server, s: Session, m: Message)
    requires InStep(sv, s) && MaySend(sv, m) && m.QuitServer?
    ensures InStep(ServerNext(sv, m), ClientNext(s, m))
  {
  }

  /** Renaming a member renames its entry, provided the name is new. */
  lemma RenameKeeps(roster: Roster, members: set<string>, pending: set<string>, oldNick: string, newNick: string)
    requires RosterOk(roster, members, pending) && newNick != oldNick && newNick !in members
    ensures RosterOk(Renamed(roster, oldNick, newNick), Swap(members, oldNick, newNick),
      Swap(pending, oldNick, newNick))
  {
  }

  lemma NickKeeps(sv: Server, s: Session, m: Message)
    requires InStep(sv, s) && MaySend(sv, m) && m.NickChange?
    ensures InStep(ServerNext(sv, m), ClientNext(s, m))
  {
    var sv', s' := ServerNext(sv, m), ClientNext(s, m);
    forall id | id in sv'.members
      ensures id in s'.rosters && RosterOk(s'.rosters[id], sv'.members[id], PendingOf(sv', id))
    {
      RenameKeeps(s.rosters[id], sv.members[id], PendingOf(sv, id), m.oldNick, m.newNick);
    }
  }

  /** A line of the batch adds members only, and settles those it lists. */
  lemma ListingKeeps(roster: Roster, members: set<string>, pending: set<string>, entries: seq<string>)
    requires RosterOk(roster, members, pending) && NicksOf(entries) <= members
    ensures RosterOk(Listed(roster, entries), members, pending - NicksOf(entries))
  {
    ListedKeys(roster, entries);
    hide Listed, ParseNamesEntry;
  }

  lemma NamesLineKeeps(sv: Server, s: Session, m: Message)
    requires InStep(sv, s) && MaySend(sv, m) && m.NamesLine?
    ensures InStep(ServerNext(sv, m), ClientNext(s, m))
  {
    hide Lower, ParseNamesEntry, Listed, Parsed, RosterOk;
    var id := Lower(m.channel);
    assert NicksOf(m.entries) <= sv.members[id];
    ListingKeeps(s.rosters[id], sv.members[id], PendingOf(sv, id), m.entries);
    NothingPending(s.rosters[id], sv.members[id], m.entries);
    hide NicksOf;
    var sv', s' := ServerNext(sv, m), ClientNext(s, m);
    assert id in sv.pending ==> PendingOf(sv', id) == PendingOf(sv, id) - NicksOf(m.entries);
  }

  lemma NothingPending(roster: Roster, members: set<string>, entries: seq<string>)
    ensures {} - NicksOf(entries) == {}
  {
  }

  lemma NamesEndKeeps(sv: Server, s: Session, m: Message)
    requires InStep(sv, s) && MaySend(sv, m) && m.NamesEnd?
    ensures InStep(ServerNext(sv, m), ClientNext(s, m))
    ensures Lower(m.channel) in sv.members ==>
      ClientNext(s, m).rosters[Lower(m.channel)].Keys == sv.members[Lower(m.channel)]
  {
    hide Lower;
  }

  lemma MessageKeeps(sv: Server, s: Session, m: Message)
    requires InStep(sv, s) && MaySend(sv, m)
    ensures InStep(ServerNext(sv, m), ClientNext(s, m))
  {
    hide InStep, ServerNext, ClientNext, MaySend;
    match m
    case JoinSelf(_, _, _) => JoinSelfKeeps(sv, s, m);
    case JoinOther(_, _) => JoinOtherKeeps(sv, s, m);
    case Part(channel, nick) => LeaveStep(sv, s, m, channel, nick);
    case Kick(channel, nick) => LeaveStep(sv, s, m, channel, nick);
    case QuitServer(_) => QuitKeeps(sv, s, m);
    case NickChange(_, _) => NickKeeps(sv, s, m);
    case NamesLine(_, _) => NamesLineKeeps(sv, s, m);
    case NamesEnd(_) => NamesEndKeeps(sv, s, m);
  }

  // ---------------------------------------------------------------------
  // Whole sessions
  // ---------------------------------------------------------------------

  ghost predicate MaySendAll(sv: Server, ms: seq<Message>)
    decreases |ms|
  {
    ms == [] || (MaySend(sv, ms[0]) && MaySendAll(ServerNext(sv, ms[0]), ms[1..]))
  }

  function ServerAfter(sv: Server, ms: seq<Message>): Server
    decreases |ms|
  {
    if ms == [] then sv else ServerAfter(ServerNext(sv, ms[0]), ms[1..])
  }

  function ClientAfter(s: Session, ms: seq<Message>): Session
    decreases |ms|
  {
    if ms == [] then s else ClientAfter(ClientNext(s, ms[0]), ms[1..])
  }

  lemma {:induction false} StaysInStep(sv: Server, s: Session, ms: seq<Message>)
    requires InStep(sv, s) && MaySendAll(sv, ms)
    ensures InStep(ServerAfter(sv, ms), ClientAfter(s, ms))
    decreases |ms|
  {
    hide InStep, ServerNext, ClientNext, MaySend;
    if ms != [] {
      MessageKeeps(sv, s, ms[0]);
      StaysInStep(ServerNext(sv, ms[0]), ClientNext(s, ms[0]), ms[1..]);
    }
  }

  /** From a session with empty rosters, whatever the server sends: each joined
      channel's roster holds members only, all of them as soon as no NAMES batch
      is open, and every key is the nick of its entry. */
  lemma RostersFollowMembership(me: string, s: Session, ms: seq<Message>, id: string)
    requires EffectiveNick(s) == me && forall i :: i in s.rosters ==> s.rosters[i] == map[]
    requires MaySendAll(Server(me, map[], map[]), ms)
    ensures var sv, s' := ServerAfter(Server(me, map[], map[]), ms), ClientAfter(s, ms);
      id in sv.members ==>
        && id in s'.rosters && s'.rosters[id].Keys <= sv.members[id]
        && (id !in sv.pending ==> s'.rosters[id].Keys == sv.members[id])
        && forall k :: k in s'.rosters[id] ==> s'.rosters[id][k].nick == k
  {
    StaysInStep(Server(me, map[], map[]), s, ms);
  }

  /** A rename gives the right set of nicks exactly when it does not rename a
      listed nick to itself, which removes the entry. */
  lemma RenameIsExact(roster: Roster, oldNick: string, newNick: string)
    ensures Renamed(roster, oldNick, newNick).Keys == Swap(roster.Keys, oldNick, newNick)
      <==> oldNick != newNick || oldNick !in roster
  {
    var after := Renamed(roster, oldNick, newNick).Keys;
    assert oldNick in roster ==> oldNick !in after;
  }

  /** A renamed entry keeps everything but its nick, and the other entries stay. */
  lemma RenameKeepsEntries(roster: Roster, oldNick: string, newNick: string, k: string)
    requires oldNick in roster && oldNick != newNick
    ensures var after := Renamed(roster, oldNick, newNick);
      && newNick in after && after[newNick] == roster[oldNick].(nick := newNick)
      && (k != oldNick && k != newNick ==> (k in after <==> k in roster) && (k in roster ==> after[k] == roster[k]))
  {
  }

  /** A join puts in the entry it came with, and leaves all others alone. */
  lemma JoinedEntries(s: Session, channel: string, p: Participant, id: string, k: string)
    ensures var before, after := RosterOf(s, id), RosterOf(Joined(s, channel, p), id);
      if id == Lower(channel) && k == p.nick then k in after && after[k] == p
      else (k in after <==> k in before) && (k in before ==> after[k] == before[k])
  {
  }

  /** Channels and nicks are the same if they differ only in the case of letters. */
  lemma FoldsCase(a: string, b: string)
    ensures EqualFold(a, b) <==>
      |a| == |b| && forall i :: 0 <= i < |a| ==>
        || a[i] == b[i]
        || ('A' <= a[i] <= 'Z' && b[i] as int == a[i] as int + 32)
        || ('A' <= b[i] <= 'Z' && a[i] as int == b[i] as int + 32)
  {
    if |a| == |b| {
      forall i | 0 <= i < |a|
        ensures Lower(a)[i] == Lower(b)[i] <==>
          || a[i] == b[i]
          || ('A' <= a[i] <= 'Z' && b[i] as int == a[i] as int + 32)
          || ('A' <= b[i] <= 'Z' && a[i] as int == b[i] as int + 32)
      {
      }
    }
  }

  // ---------------------------------------------------------------------
  // NAMES entries
  // ---------------------------------------------------------------------

  /** Founder, admin, operator, half-operator and voice. */
  const PREFIXES: map<char, char> := map['~' := 'q', '&' := 'a', '@' := 'o', '%' := 'h', '+' := 'v']

  ghost predicate IsPrefix(s: string) { forall i :: 0 <= i < |s| ==> s[i] in PREFIXES }

  function ModesOf(prefixes: string): string
    requires IsPrefix(prefixes)
  {
    if prefixes == "" then "" else [PREFIXES[prefixes[0]]] + ModesOf(prefixes[1..])
  }

  lemma {:induction false} PrefixesAreModes(prefixes: string, rest: string)
    requires IsPrefix(prefixes) && (rest == "" || rest[0] !in PREFIXES)
    ensures ParseNickMode(prefixes + rest) == (ModesOf(prefixes), rest)
  {
    if prefixes == "" {
      assert prefixes + rest == rest;
    } else {
      PrefixesAreModes(prefixes[1..], rest);
      assert (prefixes + rest)[1..] == prefixes[1..] + rest;
    }
  }

  lemma {:induction false} CutAround(front: string, sep: char, back: string)
    requires sep !in front
    ensures CutAt(front + [sep] + back, sep) == (front, back)
    ensures CutAt(front, sep) == (front, "")
  {
    if front == "" {
      assert (front + [sep] + back)[1..] == back;
    } else {
      CutAround(front[1..], sep, back);
      assert (front + [sep] + back)[1..] == front[1..] + [sep] + back;
      assert [front[0]] + front[1..] == front;
    }
  }

  /** An entry with all its prefixes and its user and host is taken apart as it
      was put together. */
  lemma EntryRoundTrip(prefixes: string, nick: string, user: string, host: string)
    requires IsPrefix(prefixes) && nick != "" && nick[0] !in PREFIXES && '!' !in nick && '@' !in user
    ensures ParseNamesEntry(prefixes + nick) == Participant(nick, ModesOf(prefixes), "", "", "", "")
    ensures ParseNamesEntry(prefixes + (nick + "!" + (user + "@" + host)))
      == Participant(nick, ModesOf(prefixes), "", "", user, host)
  {
    PrefixesAreModes(prefixes, nick);
    CutAround(nick, '!', user + "@" + host);
    PrefixesAreModes(prefixes, nick + "!" + (user + "@" + host));
    CutAround(user, '@', host);
  }

  // ---------------------------------------------------------------------
  // Modes
  // ---------------------------------------------------------------------

  ghost predicate NoSigns(changes: seq<Signed>) { forall c :: c in changes ==> !IsSign(c.mode) }

  function EndSign(modes: string, add: bool): bool {
    if modes == "" then add else EndSign(modes[1..], if IsSign(modes[0]) then modes[0] == '+' else add)
  }

  lemma {:induction false} SignedConcat(a: string, b: string, add: bool)
    ensures SignedModes(a + b, add) == SignedModes(a, add) + SignedModes(b, EndSign(a, add))
    ensures EndSign(a + b, add) == EndSign(b, EndSign(a, add))
    decreases |a|
  {
    if a == "" {
      assert a + b == b;
    } else {
      assert (a + b)[1..] == a[1..] + b && (a + b)[0] == a[0];
      SignedConcat(a[1..], b, if IsSign(a[0]) then a[0] == '+' else add);
    }
  }

  /** A sign holds for the letters behind it, up to the next sign. */
  lemma SignHolds(front: string, sign: char, letters: string, add: bool)
    requires (sign == '+' || sign == '-') && '+' !in letters && '-' !in letters
    ensures SignedModes(front + ([sign] + letters), add) == SignedModes(front, add) + AllSigned(letters, sign == '+')
    ensures SignedModes(letters, add) == AllSigned(letters, add)
  {
    SignedConcat(front, [sign] + letters, add);
    assert ([sign] + letters)[1..] == letters;
    LettersSigned(letters, sign == '+');
    LettersSigned(letters, add);
  }

  function AllSigned(letters: string, add: bool): seq<Signed> {
    seq(|letters|, i requires 0 <= i < |letters| => Signed(add, letters[i]))
  }

  lemma {:induction false} LettersSigned(letters: string, add: bool)
    requires '+' !in letters && '-' !in letters
    ensures SignedModes(letters, add) == AllSigned(letters, add)
  {
    if letters != "" {
      LettersSigned(letters[1..], add);
      assert AllSigned(letters, add) == [Signed(add, letters[0])] + AllSigned(letters[1..], add);
    }
  }

  /** The names under which the backend tracks modes. */
  predicate Tracks(c: char, name: string) {
    || (c == 'i' && name == "invite_only") || (c == 'm' && name == "moderated") || (c == 'k' && name == "password")
    || (c == 'n' && name == "prevent_external_send") || (c == 't' && name == "topic_protection")
  }

  lemma TracksIs(c: char, name: string)
    ensures Tracks(c, name) <==> c in CHANNEL_MODE_NAMES && CHANNEL_MODE_NAMES[c] == name
  {
  }

  /** A tracked mode has the sign of its last letter. */
  lemma {:induction false} LastSignWins(modes: map<string, bool>, changes: seq<Signed>, name: string, k: nat)
    requires k < |changes| && Tracks(changes[k].mode, name)
    requires forall l :: k < l < |changes| ==> !Tracks(changes[l].mode, name)
    ensures var after := ApplyModes(modes, changes); name in after && after[name] == changes[k].add
    decreases |changes|
  {
    hide Tracks;
    var c, rest := changes[0], changes[1..];
    TracksIs(c.mode, name);
    var next := if c.mode in CHANNEL_MODE_NAMES then modes[CHANNEL_MODE_NAMES[c.mode] := c.add] else modes;
    assert forall l :: 0 <= l < |rest| ==> rest[l] == changes[l + 1];
    if k > 0 { LastSignWins(next, rest, name, k - 1); } else { OthersKeepSign(next, rest, name); }
  }

  /** And without one it stays as it was. */
  lemma {:induction false} OthersKeepSign(modes: map<string, bool>, changes: seq<Signed>, name: string)
    requires forall l :: 0 <= l < |changes| ==> !Tracks(changes[l].mode, name)
    ensures var after := ApplyModes(modes, changes);
      (name in after <==> name in modes) && (name in modes ==> after[name] == modes[name])
    decreases |changes|
  {
    hide Tracks;
    if changes != [] {
      var c, rest := changes[0], changes[1..];
      TracksIs(c.mode, name);
      assert forall l :: 0 <= l < |rest| ==> rest[l] == changes[l + 1];
      var next := if c.mode in CHANNEL_MODE_NAMES then modes[CHANNEL_MODE_NAMES[c.mode] := c.add] else modes;
      OthersKeepSign(next, rest, name);
    }
  }

  /** The letters that are about a user, and those that take an argument besides. */
  lemma TakersAre(modes: string, args: seq<string>, i: nat)
    requires i < |modes| && modes[i] != '+' && modes[i] != '-'
    ensures UserAt(modes, args, i) <==> modes[i] in {'o', 'v', 'h', 'a', 'q'} && Takers(modes, i) < |args|
    ensures var takes :=
        modes[i] in {'o', 'v', 'h', 'a', 'q', 'k', 'b', 'e', 'I'} || (modes[i] == 'l' && SignAt(modes, i));
      Takers(modes, i + 1) == Takers(modes, i) + if takes then 1 else 0
  {
  }

  /** Compressing keeps the meaning: parsed again, the string gives the same
      signed letters in the same order, whatever sign the parser starts with. */
  lemma {:induction false} CompressKeepsMeaning(changes: seq<Signed>, add: bool)
    requires NoSigns(changes)
    ensures SignedModes(Compress(changes), add) == changes
    ensures changes != [] ==> EndSign(Compress(changes), add) == changes[|changes| - 1].add
  {
    if changes != [] {
      var front, c := changes[..|changes| - 1], changes[|changes| - 1];
      assert c in changes && forall d :: d in front ==> d in changes;
      CompressKeepsMeaning(front, add);
      var sign := if front != [] && front[|front| - 1].add == c.add then "" else if c.add then "+" else "-";
      SignedConcat(Compress(front), sign + [c.mode], add);
      CompressSplits(changes);
      hide Compress, SignedModes, EndSign, IsSign;
      OneSigned(sign, c, EndSign(Compress(front), add));
      assert front + [c] == changes;
    }
  }

  lemma CompressSplits(changes: seq<Signed>)
    requires changes != []
    ensures var front, c := changes[..|changes| - 1], changes[|changes| - 1];
      var sign := if front != [] && front[|front| - 1].add == c.add then "" else if c.add then "+" else "-";
      Compress(changes) == Compress(front) + (sign + [c.mode])
  {
  }

  lemma OneSigned(sign: string, c: Signed, before: bool)
    requires !IsSign(c.mode)
    requires sign == (if c.add then "+" else "-") || (sign == "" && before == c.add)
    ensures SignedModes(sign + [c.mode], before) == [c] && EndSign(sign + [c.mode], before) == c.add
  {
    assert [c.mode][1..] == "" && [c] + [] == [c];
    assert SignedModes([c.mode], c.add) == [c];
    assert [c.mode] != "" && EndSign([c.mode][1..], c.add) == c.add;
    assert EndSign([c.mode], c.add) == c.add;
    if sign != "" {
      assert (sign + [c.mode])[1..] == [c.mode] && (sign + [c.mode])[0] == sign[0];
    } else {
      assert sign + [c.mode] == [c.mode];
    }
  }

  lemma {:induction false} ChannelChangesHaveNoSigns(modes: string, args: seq<string>, n: nat)
    requires n <= |modes|
    ensures NoSigns(ChannelChanges(modes, args, n))
  {
    if n > 0 {
      ChannelChangesHaveNoSigns(modes, args, n - 1);
    }
  }

  /** The backend's parser applied to the compressed string changes the tracked
      modes exactly as the channel letters of the original would, in order. */
  lemma ModeStringKeepsMeaning(modeStr: string, args: seq<string>, modes: map<string, bool>)
    ensures var changes := ChannelChanges(modeStr, args, |modeStr|);
      ApplyModes(modes, SignedModes(Compress(changes), true)) == ApplyModes(modes, changes)
  {
    ChannelChangesHaveNoSigns(modeStr, args, |modeStr|);
    CompressKeepsMeaning(ChannelChanges(modeStr, args, |modeStr|), true);
  }

  lemma {:induction false} TakersGrow(modes: string, i: nat, j: nat)
    requires i <= j <= |modes|
    ensures Takers(modes, i) <= Takers(modes, j)
    decreases j - i
  {
    if i < j { TakersGrow(modes, i, j - 1); }
  }

  /** No two user letters share an argument, and none is out of range. */
  lemma OwnArguments(modes: string, args: seq<string>, i: nat, j: nat)
    requires i < j < |modes| && !IsSign(modes[i]) && UserAt(modes, args, i) && UserAt(modes, args, j)
    ensures Takers(modes, i) < Takers(modes, j) < |args|
  {
    assert Takers(modes, i + 1) == Takers(modes, i) + 1;
    TakersGrow(modes, i + 1, j);
  }

  /** The letters of user changes with their signs. */
  function LettersOf(changes: seq<UserChange>): (r: seq<Signed>)
    ensures |r| == |changes|
  {
    seq(|changes|, i requires 0 <= i < |changes| => Signed(changes[i].add, changes[i].mode))
  }

  /** What letter `i` is on its own: nothing for a sign. */
  function LetterAt(modes: string, i: nat): seq<Signed>
    requires i < |modes|
  {
    if IsSign(modes[i]) then [] else [Signed(SignAt(modes, i), modes[i])]
  }

  /** One letter goes to one of the two parts. */
  lemma LetterOfParts(modes: string, args: seq<string>, i: nat)
    requires i < |modes|
    ensures multiset(LettersOf(UserChanges(modes, args, i + 1))) + multiset(ChannelChanges(modes, args, i + 1))
      == multiset(LettersOf(UserChanges(modes, args, i))) + multiset(ChannelChanges(modes, args, i))
         + multiset(LetterAt(modes, i))
  {
    OneLetter(modes, args, i);
    NoUserSign();
    hide UserChanges, ChannelChanges, Takers, SignAt, LettersOf, TakesArg;
    var users, channel := UserChanges(modes, args, i), ChannelChanges(modes, args, i);
    assert users + [] == users && channel + [] == channel;
    if modes[i] in USER_MODES && Takers(modes, i) < |args| {
      var u := UserChange(SignAt(modes, i), modes[i], args[Takers(modes, i)]);
      LettersGrow(users, u);
    } else {
      MultisetConcat(channel, LetterAt(modes, i));
    }
  }

  lemma NoUserSign()
    ensures '+' !in USER_MODES && '-' !in USER_MODES
  {
  }

  lemma LettersGrow(users: seq<UserChange>, u: UserChange)
    ensures multiset(LettersOf(users + [u])) == multiset(LettersOf(users)) + multiset([Signed(u.add, u.mode)])
  {
    assert LettersOf(users + [u]) == LettersOf(users) + [Signed(u.add, u.mode)];
    MultisetConcat(LettersOf(users), [Signed(u.add, u.mode)]);
  }

  /** And to the whole. */
  lemma LetterOfWhole(modes: string, i: nat)
    requires i < |modes| && SignAt(modes, i) == EndSign(modes[..i], true)
    ensures SignedModes(modes[..i + 1], true) == SignedModes(modes[..i], true) + LetterAt(modes, i)
    ensures SignAt(modes, i + 1) == EndSign(modes[..i + 1], true)
  {
    assert modes[..i + 1] == modes[..i] + [modes[i]];
    SignedConcat(modes[..i], [modes[i]], true);
    assert [modes[i]][1..] == "";
    assert EndSign("", SignAt(modes, i + 1)) == SignAt(modes, i + 1);
    assert LetterAt(modes, i) + [] == LetterAt(modes, i);
  }

  /** Every letter that is not a sign ends up in exactly one of the two parts, with
      its sign, as often as it stands in the string. */
  lemma {:induction false} NoLetterIsLost(modes: string, args: seq<string>, n: nat)
    requires n <= |modes|
    ensures multiset(LettersOf(UserChanges(modes, args, n))) + multiset(ChannelChanges(modes, args, n))
      == multiset(SignedModes(modes[..n], true))
    ensures SignAt(modes, n) == EndSign(modes[..n], true)
  {
    hide UserChanges, ChannelChanges, LettersOf, LetterAt, SignedModes, SignAt, EndSign;
    if n == 0 {
      NoLetterYet(modes, args);
    } else {
      NoLetterIsLost(modes, args, n - 1);
      LetterOfParts(modes, args, n - 1);
      LetterOfWhole(modes, n - 1);
      MultisetConcat(SignedModes(modes[..n - 1], true), LetterAt(modes, n - 1));
    }
  }

  lemma NoLetterYet(modes: string, args: seq<string>)
    ensures LettersOf(UserChanges(modes, args, 0)) == [] && ChannelChanges(modes, args, 0) == []
    ensures SignedModes(modes[..0], true) == [] && SignAt(modes, 0) == EndSign(modes[..0], true)
  {
  }

  lemma MultisetConcat(a: seq<Signed>, b: seq<Signed>)
    ensures multiset(a + b) == multiset(a) + multiset(b)
  {
  }

  // ---------------------------------------------------------------------
  // The frontend's parser of the same strings
  // ---------------------------------------------------------------------

  function ModeKey(modeMap: map<char, string>, c: char): string {
    if c in modeMap && modeMap[c] != "" then modeMap[c] else [c]
  }

  function Calculated(modeMap: map<char, string>, modes: map<string, bool>, changes: seq<Signed>): map<string, bool>
    decreases changes
  {
    if changes == [] then modes
    else Calculated(modeMap, modes[ModeKey(modeMap, changes[0].mode) := changes[0].add], changes[1..])
  }

  /** The frontend's name for a letter. */
  predicate KeyOf(modeMap: map<char, string>, c: char, key: string) {
    key == if c in modeMap && modeMap[c] != "" then modeMap[c] else [c]
  }

  /** There, too, the sign of the last letter counts. */
  lemma {:induction false} LastSignCounts(modeMap: map<char, string>, modes: map<string, bool>, changes: seq<Signed>,
                                          key: string, k: nat)
    requires k < |changes| && KeyOf(modeMap, changes[k].mode, key)
    requires forall l :: k < l < |changes| ==> !KeyOf(modeMap, changes[l].mode, key)
    ensures var after := Calculated(modeMap, modes, changes); key in after && after[key] == changes[k].add
    decreases |changes|
  {
    var c, rest := changes[0], changes[1..];
    assert forall l :: 0 <= l < |rest| ==> rest[l] == changes[l + 1];
    var next := modes[ModeKey(modeMap, c.mode) := c.add];
    assert KeyOf(modeMap, c.mode, ModeKey(modeMap, c.mode));
    if k > 0 { LastSignCounts(modeMap, next, rest, key, k - 1); } else { OthersCountNot(modeMap, next, rest, key); }
  }

  lemma {:induction false} OthersCountNot(modeMap: map<char, string>, modes: map<string, bool>, changes: seq<Signed>,
                                          key: string)
    requires forall l :: 0 <= l < |changes| ==> !KeyOf(modeMap, changes[l].mode, key)
    ensures var after := Calculated(modeMap, modes, changes);
      (key in after <==> key in modes) && (key in modes ==> after[key] == modes[key])
    decreases |changes|
  {
    if changes != [] {
      var c, rest := changes[0], changes[1..];
      assert forall l :: 0 <= l < |rest| ==> rest[l] == changes[l + 1];
      assert KeyOf(modeMap, c.mode, ModeKey(modeMap, c.mode));
      OthersCountNot(modeMap, modes[ModeKey(modeMap, c.mode) := c.add], rest, key);
    }
  }

  predicate IsWordChar(c: char) { 'a' <= c <= 'z' || 'A' <= c <= 'Z' || '0' <= c <= '9' || c == '_' }

  method CalculateModes(modeMap: map<char, string>, modeStr: string) returns (modes: map<string, bool>)
    ensures modes == Calculated(modeMap, map[], SignedModes(modeStr, true))
  {
    modes := map[];
    var str := modeStr;
    if str != "" && !(IsSign(str[0]) && |str| > 1 && IsWordChar(str[1])) {
      str := "+" + str;
      assert str[1..] == modeStr;
    }
    if str == "" { return; }
    var has := true;
    assert str[0..] == str;
    for i := 0 to |str|
      invariant Calculated(modeMap, modes, SignedModes(str[i..], has)) ==
        Calculated(modeMap, map[], SignedModes(modeStr, true))
    {
      var c := str[i];
      assert str[i..][0] == c && str[i..][1..] == str[i + 1..];
      if c == '+' {
        has := true;
      } else if c == '-' {
        has := false;
      } else {
        ghost var rest := SignedModes(str[i + 1..], has);
        assert ([Signed(has, c)] + rest)[1..] == rest;
        modes := modes[ModeKey(modeMap, c) := has];
      }
    }
    assert str[|str|..] == "";
  }

  /** So the frontend, too, reads from the compressed string the channel letters
      of the original, in order. */
  lemma FrontendReadsTheSame(modeMap: map<char, string>, modeStr: string, args: seq<string>)
    ensures var changes := ChannelChanges(modeStr, args, |modeStr|);
      Calculated(modeMap, map[], SignedModes(Compress(changes), true)) == Calculated(modeMap, map[], changes)
  {
    ChannelChangesHaveNoSigns(modeStr, args, |modeStr|);
    CompressKeepsMeaning(ChannelChanges(modeStr, args, |modeStr|), true);
  }

  // ---------------------------------------------------------------------
  // Nick repair
  // ---------------------------------------------------------------------

  datatype NickEvent = InUse(attempted: string) | OwnNick(newNick: string)

  function NickNext(s: NickState, e: NickEvent): NickState {
    match e
    case InUse(attempted) => Collided(s, attempted)
    case OwnNick(newNick) => OwnNickChanged(s, newNick)
  }

  function NickAfter(s: NickState, es: seq<NickEvent>): NickState
    decreases |es|
  {
    if es == [] then s else NickAfter(NickNext(s, es[0]), es[1..])
  }

  ghost predicate NicksNamed(es: seq<NickEvent>) { forall e :: e in es && e.OwnNick? ==> e.newNick != "" }

  function Underscores(n: nat): string { seq(n, _ => '_') }

  lemma LowerConcat(a: string, b: string)
    ensures Lower(a + b) == Lower(a) + Lower(b)
  {
  }

  /** The repairs sent since registration are the desired nick with one, two, ...
      underscores, up to case, and the running base is the last but one. */
  ghost predicate Repairing(desired: string, before: nat, s: NickState) {
    && s.nick != "" && before <= |s.sent|
    && (forall j :: before <= j < |s.sent| ==> EqualFold(s.sent[j], desired + Underscores(j - before + 1)))
    && (s.fixBase != "" ==> |s.sent| > before && EqualFold(s.fixBase, desired + Underscores(|s.sent| - before - 1)))
  }

  lemma OneMore(base: string, desired: string, n: nat)
    requires EqualFold(base, desired + Underscores(n))
    ensures EqualFold(base + "_", desired + Underscores(n + 1))
  {
    LowerConcat(base, "_");
    LowerConcat(desired + Underscores(n), "_");
    assert desired + Underscores(n + 1) == desired + Underscores(n) + "_";
  }

  lemma EventKeepsRepair(desired: string, before: nat, s: NickState, e: NickEvent)
    requires Repairing(desired, before, s) && (e.OwnNick? ==> e.newNick != "")
    ensures Repairing(desired, before, NickNext(s, e))
  {
    hide Lower, Underscores;
    if e.InUse? && s.fixBase != "" && EqualFold(e.attempted, s.fixBase + "_") {
      var n := |s.sent| - before - 1;
      OneMore(s.fixBase, desired, n);
      OneMore(e.attempted, desired, n + 1);
    }
  }

  lemma {:induction false} EventsKeepRepair(desired: string, before: nat, s: NickState, es: seq<NickEvent>)
    requires Repairing(desired, before, s) && NicksNamed(es)
    ensures Repairing(desired, before, NickAfter(s, es))
    decreases |es|
  {
    hide Repairing, NickNext;
    if es != [] {
      assert es[0] in es;
      EventKeepsRepair(desired, before, s, es[0]);
      EventsKeepRepair(desired, before, NickNext(s, es[0]), es[1..]);
    }
  }

  /** After a collision at registration, whatever 433s and nick changes follow,
      the repairs are the desired nick with a strictly growing run of
      underscores, so none is ever sent twice. */
  lemma RepairsGrow(s: NickState, current: string, urlNick: string, es: seq<NickEvent>)
    requires current != "" && urlNick != "" && NicksNamed(es)
    requires var desired := if s.nick != "" then s.nick else urlNick; !EqualFold(current, desired)
    ensures var desired := if s.nick != "" then s.nick else urlNick;
      var after := NickAfter(Registered(s, current, urlNick), es);
      && (forall j :: |s.sent| <= j < |after.sent| ==>
        EqualFold(after.sent[j], desired + Underscores(j - |s.sent| + 1)))
      && (forall i, j :: |s.sent| <= i < j < |after.sent| ==> !EqualFold(after.sent[i], after.sent[j]))
  {
    var desired := if s.nick != "" then s.nick else urlNick;
    var start := Registered(s, current, urlNick);
    assert desired + Underscores(0) == desired && Underscores(1) == "_";
    EventsKeepRepair(desired, |s.sent|, start, es);
    var after := NickAfter(start, es);
    forall i, j | |s.sent| <= i < j < |after.sent| ensures !EqualFold(after.sent[i], after.sent[j]) {
      assert EqualFold(after.sent[i], desired + Underscores(i - |s.sent| + 1));
      assert EqualFold(after.sent[j], desired + Underscores(j - |s.sent| + 1));
      assert |Lower(after.sent[i])| == |desired| + i - |s.sent| + 1;
      assert |Lower(after.sent[j])| == |desired| + j - |s.sent| + 1;
    }
  }

  /** The events that matter to a repair: nick changes of our own, and each 433 that
      names, up to case, the last NICK that the repair has sent, as long as our nick
      has not changed. */
  function DueEvents(es: seq<NickEvent>, repairing: bool, last: string): seq<NickEvent>
    decreases |es|
  {
    if es == [] then []
    else
      match es[0]
      case OwnNick(_) => [es[0]] + DueEvents(es[1..], false, last)
      case InUse(attempted) =>
        if repairing && EqualFold(attempted, last) then [es[0]] + DueEvents(es[1..], true, attempted + "_")
        else DueEvents(es[1..], repairing, last)
  }

  /** One more underscore for every 433. */
  function Answers(es: seq<NickEvent>): seq<string> {
    if es == [] then []
    else (if es[0].InUse? then [es[0].attempted + "_"] else []) + Answers(es[1..])
  }

  lemma {:induction false} DueEventsDecide(s: NickState, es: seq<NickEvent>, repairing: bool, last: string)
    requires s.nick != "" && NicksNamed(es)
    requires (repairing <==> s.fixBase != "") && (repairing ==> last == s.fixBase + "_")
    ensures NickAfter(s, DueEvents(es, repairing, last)) == NickAfter(s, es)
    ensures NickAfter(s, es).sent == s.sent + Answers(DueEvents(es, repairing, last))
    decreases |es|
  {
    hide EqualFold;
    if es != [] {
      var e, rest := es[0], es[1..];
      assert e in es;
      var repairing' := repairing && e.InUse?;
      var due := repairing && e.InUse? && EqualFold(e.attempted, last);
      var last' := if due then e.attempted + "_" else last;
      if due { NotEmpty(e.attempted, last); }
      DueEventsDecide(NickNext(s, e), rest, repairing', last');
      assert e.InUse? && !due ==> repairing' == repairing && NickNext(s, e) == s;
      if due || e.OwnNick? {
        var later := DueEvents(rest, repairing', last');
        assert DueEvents(es, repairing, last) == [e] + later && ([e] + later)[1..] == later;
        var here := if e.InUse? then [e.attempted + "_"] else [];
        assert s.sent + here + Answers(later) == s.sent + (here + Answers(later));
      }
    }
  }

  lemma NotEmpty(a: string, b: string)
    requires EqualFold(a, b) && b != ""
    ensures a != ""
  {
    assert |Lower(a)| == |Lower(b)|;
  }

  /** After a collision at registration, a 433 counts exactly when it names the last
      nick the repair has asked for: all others can be left out of any run without
      changing anything, and each of these sends the nick it names with one more
      underscore. */
  lemma OnlyDueAttemptsMatter(s: NickState, current: string, urlNick: string, es: seq<NickEvent>)
    requires current != "" && urlNick != "" && NicksNamed(es)
    requires var desired := if s.nick != "" then s.nick else urlNick; !EqualFold(current, desired)
    ensures var desired := if s.nick != "" then s.nick else urlNick;
      var start, due := Registered(s, current, urlNick), DueEvents(es, true, desired + "_");
      && NickAfter(start, due) == NickAfter(start, es)
      && NickAfter(start, es).sent == s.sent + [desired + "_"] + Answers(due)
  {
    var desired := if s.nick != "" then s.nick else urlNick;
    DueEventsDecide(Registered(s, current, urlNick), es, true, desired + "_");
  }

  /** Our own nick change takes the new nick and ends a running repair: nothing is sent
      from then on. */
  lemma OwnChangeEndsRepair(s: NickState, newNick: string, es: seq<NickEvent>)
    requires newNick != "" && NicksNamed(es)
    ensures NickNext(s, OwnNick(newNick)).nick == newNick && NickNext(s, OwnNick(newNick)).fixBase == ""
    ensures NickAfter(NickNext(s, OwnNick(newNick)), es).sent == s.sent
  {
    NoRepairAfterNickChange(NickNext(s, OwnNick(newNick)), es);
  }

  /** Before registration every 433 is answered with one more underscore. */
  lemma UnregisteredRetries(s: NickState, attempted: string)
    requires s.nick == ""
    ensures NickNext(s, InUse(attempted)) == s.(sent := s.sent + [attempted + "_"])
  {
  }

  /** Once our nick has changed, no repair is sent until the next registration. */
  lemma {:induction false} NoRepairAfterNickChange(s: NickState, es: seq<NickEvent>)
    requires s.nick != "" && s.fixBase == "" && NicksNamed(es)
    ensures NickAfter(s, es).sent == s.sent && NickAfter(s, es).fixBase == ""
    decreases |es|
  {
    if es != [] {
      assert es[0] in es;
      NoRepairAfterNickChange(NickNext(s, es[0]), es[1..]);
    }
  }
}
