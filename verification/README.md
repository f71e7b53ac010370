# Convos: models and proofs

Convos is an IRC client that keeps its users connected and stores what is said.
This project models the parts of it that carry state or recursion and proves what
they promise, for every input, every run or every interleaving.

| files | what they model |
|---|---|
| `Calendar`, `Text`, `LogFormat`, `LogReader` | Go's civil dates and `AddDate`, lines of bytes, the log line format, the forward and the chunked backward reader of a log file |
| `History`, `HistoryLaws` | the message store with one log file per month: `LoadMessages` as a fast form of one flat log, `SaveMessage` |
| `Paging`, `PagingForward` | a client that pages back, or forward, through the history by the returned cursor |
| `Splitter`, `SplitterLaws` | splitting a message under a length and a bulk limit |
| `Events`, `EventProgress`, `Emitter` | the event emitter: a state machine of its goroutines with explicit lock holders, what they have left to do, and its methods |
| `Reconnect`, `Connector` | connecting, disconnecting and reconnecting: a state machine, and the methods |
| `Irc`, `IrcLaws` | the session: rosters, mode strings and the repair of a nick (RFC 2812 sections 3.1.2, 3.1.7, 3.2.1 to 3.2.3, 3.2.5, 3.2.8 and 5.2), against a model of the server |
| `Markdown`, `MarkdownLaws`, `MarkdownText`, `MarkdownTags` | the chat formatter, a strict reader of the HTML it makes, what becomes of the text, and the HTML of each kind of markup |
| `Socket`, `SocketLaws` | the frontend's socket, its queue and its timers |
| `Reactive`, `ReactiveLaws` | properties whose changes are collected, reported once and stored |
| `EmbedCache` | the cache of link previews under interleaved fetches |

Code that works on objects step by step is a class whose methods are proved
against functions on an abstract state; the laws are lemmas about these functions
and about runs of them. A law that does not hold of the code without a condition
is stated as an equivalence with that condition; where it is not plain that the
failing side occurs, a lemma shows a case. `dafny verify dfyconfig.toml` checks
everything.

## Where the code differs from its documentation, or surprises

- `LoadMessages` says it walks months; from day 29, 30 or 31 `AddDate` overflows, and a month is skipped (forward) or read twice (backward).
- `SplitMessage` sends an empty piece before a word of exactly the length limit at the start of a line, and with a length limit of 1 a word of two bytes or more fills the rest of the bulk limit with empty pieces.
- A NICK message that renames a listed nick to itself removes it from the roster.
- `Socket.close()` says the socket stays closed, but `keepClosed` is never read: its own `onclose` schedules a reconnect unless the code is 1008 or 1011, and takes a newer socket away.
- `LoadMessages` drops a month silently, going forward, when the scanner meets a line of 65536 bytes or more in it; going backward it reads such lines.
- Attributes reach a tag through a replacement string, so `$&` or a dollar and a backquote in a link puts a bracket into the HTML.
- `_mdURL` drops the scheme of `https:` and `mailto:` from the visible text, but not that of `http:`.
- A preview stored twice can be evicted by its own store, and the order list grows with every store of the same URL.
- `Reactive` treats a stored `null` as missing, so a property set to `null` comes back as its default.

## Model

| member | source | states |
|---|---|---|
| History.FileBackend.LoadMessages | pkg/storage/file.go:246-348 | the month-by-month walk with its two readers, stitching, early stop and trimming computes the function the laws below are about, and terminates; and whatever the store holds, every message of the answer lies strictly before the `before` cursor (or `around` in its place, or ten seconds from now without any cursor) and strictly after the `after` cursor, and they are no more than the limit, or 60 for a limit that is not from 1 to 200 |
| HistoryLaws.LoadIsFlat | pkg/storage/file.go:246-348 | the walk returns what one flat chronological log would: the first or last `limit` messages strictly inside the window, in order, and End exactly when those are all; going forward, of a store with no line above the scanner's token limit in a month that holds messages |
| HistoryLaws.OlderMessages | pkg/storage/file.go:277-280 | so a query with `before`, or `around` in its place, is answered with the last messages of the log before that time and after the same time a year earlier, as many as the limit, and End exactly if those are all |
| HistoryLaws.LatestMessages | pkg/storage/file.go:289-292 | a query without cursors with the last ones up to ten seconds from now |
| HistoryLaws.NewerMessages | pkg/storage/file.go:281-288 | a query with `after` alone with the first ones after that time, for a year and at most until a month from now |
| HistoryLaws.MessagesBetween | pkg/storage/file.go:273-276 | and one with both with the first ones strictly between the two |
| HistoryLaws.LoadExact | pkg/storage/file.go:307-333 | it does so for every such store if and only if every month searched has the cursor's day of month, which days 1 to 28 guarantee |
| HistoryLaws.ForwardIsExact | pkg/storage/file.go:321-327 | and going forward `Load` does so for a given store, in every safe window and with every limit, if and only if no month with messages has a line above the token limit: such a month is dropped with the error; the only-if side is about `Load`, whose limits have no bound, where a query never asks for more than 200 |
| HistoryLaws.LongLineHidesASecond | pkg/storage/file.go:321-327 | with any limit that a query may have: if what is read before a long line holds no more messages of a second than the limit, and nothing later, the query for that second finds nothing although the month has a message in it |
| HistoryLaws.LongMessageIsHidden | pkg/storage/file.go:321-327 | a message whose own line reaches the token limit, saved alone, is found by no forward query whatever its limit |
| HistoryLaws.ForwardSkipsAMonth | pkg/storage/file.go:333-333 | otherwise, going forward, there is a store with a month that is never opened: AddDate carries the 31st of a short month into the next |
| HistoryLaws.BackwardRepeatsAMonth | pkg/storage/file.go:333-333 | and going backward a store with a month that is read twice |
| History.WalkTerminates | pkg/storage/file.go:307-334 | the cursor makes progress towards the end of the window from every start date, also where AddDate repeats a month |
| History.WindowOf | pkg/storage/file.go:261-293 | the window of a query: forward exactly if it has an `after` cursor, which is then its start; it ends at `before`, or at `around` in its place, or ten seconds from now, or for `after` alone at the earlier of a year later and a month from now; and a backward one spans exactly the year before its end |
| History.FileBackend.SaveMessage | pkg/storage/file.go:532-558 | appends one formatted line to the log of the month of the message, stamped now if it has no time, and touches no other file |
| HistoryLaws.SaveAppends | pkg/storage/file.go:532-558 | saving in time order keeps the store valid and appends exactly the saved message to the flat log |
| HistoryLaws.SavedInOrder | pkg/storage/file.go:532-558 | saved in time order one after the other, messages are the flat log of the store, in that order, so the answers above are about the very messages that were saved |
| HistoryLaws.SaveInFile | pkg/storage/file.go:541-557 | only the file of the month changes, its messages are the old ones followed by the new, and it can be read forward if and only if all its lines, the new one included, are below the token limit |
| HistoryLaws.AppendMessage | pkg/storage/file.go:554-557 | appending a line to a file of complete lines adds exactly one message when the file is read |
| LogReader.ReadLogFile | pkg/storage/file.go:353-394 | the scanning loop, with its early exits, returns the first `limit` messages strictly between two instants, or the scanner's error exactly when it meets a line of 65536 bytes before it has what it wants |
| LogReader.ReadLogFileBackward | pkg/storage/file.go:398-482 | for every chronological content and every chunk size from 1, the chunks read from the end and the carried remainder give the last `limit` messages in range in chronological order |
| LogReader.ScanChunk | pkg/storage/file.go:445-476 | the inner loop visits the complete lines of a chunk newest first, each once, and stops only when nothing older can match |
| LogReader.ChunkLines | pkg/storage/file.go:429-443 | splitting a chunk and gluing the carried remainder to its last piece gives the lines of the file at that place, wherever the chunk boundary falls |
| LogReader.ChronologicalStop | pkg/storage/file.go:375-382 | in a chronological file nothing before a message at or below `after`, and nothing behind one at or above `before`, is in range, which justifies the early exits |
| LogReader.SameLines | pkg/storage/file.go:361-364 | both readers see the same messages if no line ends in a carriage return |
| LogReader.ReadersAgree | pkg/storage/file.go:353-482 | and then return the same when the limit does not cut, if and only if the forward reader does not run into a line above its token limit, which takes such a line |
| LogFormat.LineRoundTrip | pkg/storage/file.go:243-243 | a line that was written is read back with the same sender, text, type and second if and only if the message is private, notice or action, holds no newline, and its sender does not imitate a delimiter |
| LogFormat.BodyRoundTrip | pkg/storage/file.go:485-575 | the overlapping `<nick> `, `-!- `, `-nick- ` and `* nick ` forms are told apart exactly for such senders |
| LogFormat.ParseBodyIsInverse | pkg/storage/file.go:485-530 | for every body, written by this program or not: the parser gives the message that is written so, where there is one, and takes the whole body for a notice without sender everywhere else |
| LogFormat.LineLooksLike | pkg/storage/file.go:554-575 | a line is the stamp, a zero, and one of `<nick> text`, `-nick- text`, `-!- text`, `* nick text` or the text |
| LogFormat.ParsedLine | pkg/storage/file.go:243-243 | only a line of the pattern holds a message: a stamp of digits and delimiters, white space, a number, white space, and a body without newline, which begins where the white space ends |
| LogFormat.StampRoundTrip | pkg/storage/file.go:556-556 | a time stamp of a four-digit year has the shape the pattern asks for and parses to the same second |
| LogFormat.StampShows | pkg/storage/file.go:556-556 | it shows the year, month, day, hour, minute and second in decimal |
| LogFormat.StampLooks | pkg/storage/file.go:556-556 | with dashes, a T and colons between the digits |
| LogFormat.ParseStampIsInverse | pkg/storage/file.go:365-369 | and only what a second looks like when stamped is read as a time, and as that second |
| Calendar.MonthOf | pkg/storage/file.go:66-70 | every second belongs to the month that names its log file |
| Calendar.MonthIsUnique | pkg/storage/file.go:66-70 | and to no other |
| Calendar.FirstDayIsGregorian | pkg/storage/file.go:66-70 | the months are those of the Gregorian calendar: 365 days a year and one more in each leap year, with 1970-01-01 as day 0 |
| Calendar.AddMonthsIsExact | pkg/storage/file.go:333-333 | AddDate(0, n, 0) counts day and time of day from the first of the target month |
| Calendar.InstantIsInjective | pkg/storage/file.go:307-307 | two civil times are the same instant only if they are the same |
| Calendar.FromUnix | pkg/storage/file.go:536-536 | time.Unix gives a valid civil time that is that very second, in the month its log is filed under |
| Paging.WalkInRange | pkg/storage/file.go:277-280 | everything a backward query returns lies strictly before its cursor, for every cursor day, which is why paging back terminates |
| Paging.NeverTwice | pkg/handler/handlers_conversation.go:223-250 | paging back by the `before` cursor visits positions of the log in strictly growing order, so none twice, whatever the time stamps |
| Paging.AllVisited | pkg/handler/handlers_conversation.go:229-235 | it visits all of them if and only if no page boundary falls inside a second |
| Paging.PageBackIs | pkg/handler/handlers_conversation.go:223-250 | the pages of the store, each the answer of `LoadMessages` to the query with `before`, are those positions of the flat log, with the limit as page size, or 60 |
| Paging.PagingExact | pkg/handler/handlers_conversation.go:223-250 | paging back returns every message before the first cursor, each once and in order, if and only if no page boundary splits a second, as long as every cursor lies on a day its year back has and less than a year after the log begins |
| Paging.PagingOrdinaryLogs | pkg/handler/handlers_conversation.go:223-250 | the same from what a caller can check: a log within 365 days on days 1 to 28, and a first cursor on such a day, less than a year after its first message |
| PagingForward.WalkInRangeForward | pkg/storage/file.go:281-288 | everything a forward query returns lies strictly after its cursor, which is why paging forward terminates |
| PagingForward.NeverTwiceForward | pkg/handler/handlers_conversation.go:237-246 | paging forward by the `after` cursor visits positions of the log in strictly growing order, so none twice, whatever the time stamps |
| PagingForward.AllVisitedForward | pkg/handler/handlers_conversation.go:242-246 | it visits all of them if and only if no page boundary falls inside a second |
| PagingForward.PageOnIs | pkg/handler/handlers_conversation.go:223-250 | the pages of a store that can be read, each the answer to the query with `after`, are those positions of the flat log, with the limit as page size, or 60 |
| PagingForward.ForwardPagingExact | pkg/handler/handlers_conversation.go:223-250 | paging forward returns every message after the first cursor, each once and in order, if and only if no page boundary splits a second, as long as every cursor has a safe window that reaches beyond the log |
| PagingForward.ForwardPagingOrdinaryLogs | pkg/handler/handlers_conversation.go:223-250 | the same from what a caller can check: a log within 365 days on days 1 to 28 that does not reach a month into the future, and a first cursor on such a day, less than a year before its end |
| Splitter.ConnectionProfile.SplitMessage | pkg/core/profile.go:224-291 | the outer loop with its early returns computes `Split` and terminates for every message and every setting |
| Splitter.ConnectionProfile.WrapWords | pkg/core/profile.go:247-287 | the loop over the words of a long line |
| Splitter.ConnectionProfile.BreakChunk | pkg/core/profile.go:257-263 | the loop that breaks a word by force |
| SplitterLaws.SplitLaw | pkg/core/profile.go:224-291 | every piece respects the length limit and their number the bulk limit; without white space the pieces spell a prefix of the message, and all of it if the bulk limit was not reached |
| SplitterLaws.ShortLines | pkg/core/profile.go:231-241 | a message of lines below the limit without a carriage return at their ends comes out as exactly these lines, as many as the bulk limit lets through, at least one |
| SplitterLaws.ShortMessage | pkg/core/profile.go:231-241 | in particular a short message of one line comes out unchanged |
| Splitter.TrimCR | pkg/core/profile.go:232-232 | what is trimmed off a line is the carriage returns at its end, all of them and nothing else |
| SplitterLaws.FieldsAreRuns | pkg/core/profile.go:243-245 | the words of a line are its longest runs without blanks and tabs, all of them and in order |
| SplitterLaws.TrimSpaceIsExact | pkg/core/profile.go:269-269 | trimming a piece takes off the white space at both ends, and no more |
| SplitterLaws.CutsAreEven | pkg/core/profile.go:257-263 | a word above the limit is cut into pieces one byte below the limit and a rest, together the word, for as long as the rest is above the limit |
| SplitterLaws.LinesFit | pkg/core/profile.go:231-288 | no piece is longer than the limit |
| SplitterLaws.InkOfBreak | pkg/core/profile.go:257-263 | breaking a word conserves it unless the bulk limit cuts |
| SplitterLaws.InkOfWrap | pkg/core/profile.go:247-287 | so does wrapping |
| SplitterLaws.GreedyOptimal | pkg/core/profile.go:231-287 | for every line and its words as the code finds them: a line below the limit that holds a word, or a longer one whose first word is below the limit, is split into no more pieces than any partition of the words into joined groups that fit; and if the bulk limit does not cut, only those are, and lines with a word above the limit, for which there is no such partition |
| SplitterLaws.ThriftyIsPacking | pkg/core/profile.go:247-287 | the pieces of such a longer line are its words, in order, grouped and joined by single spaces, each group trimmed of white space other than blanks at its ends; whole, if no word has such white space at its ends |
| SplitterLaws.OneTooMany | pkg/core/profile.go:268-273 | a first word of exactly the limit costs one piece more than the least, an empty one at the front |
| SplitterLaws.FieldsAreNonempty | pkg/core/profile.go:243-245 | no word of a line is empty |
| SplitterLaws.GreedyIsLeast | pkg/core/profile.go:268-280 | for words that fit on a line, the first of them below the limit, the number of pieces greedy wrapping makes is least among all packings |
| SplitterLaws.GreedyStaysAhead | pkg/core/profile.go:268-280 | a shorter current line never costs a piece, and no current line costs more than one over another |
| SplitterLaws.WrapIsPacking | pkg/core/profile.go:268-287 | greedy groups are a packing of the words, as many as greedy wrapping makes pieces, and below the bulk limit they are the pieces |
| SplitterLaws.LimitOneFillsTheRoom | pkg/core/profile.go:257-263 | with a length limit of 1, a word of two bytes or more fills what the bulk limit leaves, at the front with empty pieces only |
| Events.NeverPanics | pkg/core/events.go:19-109 | in every interleaving nothing is sent on a closed channel, no channel is closed twice and no buffer outgrows its size |
| Events.OnlyOpenChannels | pkg/core/events.go:19-109 | seen at the steps: whoever is about to close a channel, or to send in a turn that sends or finds the buffer full, finds it open |
| Events.StreamsAreOrdered | pkg/core/events.go:61-109 | received plus buffered events of a subscription are a subsequence, in critical-section order, of the emissions that reached it, each at most once and addressed to its user |
| Events.EmissionIsComplete | pkg/core/events.go:90-108 | in every run, an emission that is over has given every subscription of its snapshot exactly one turn, from then on |
| Events.MissedOnlyIfFull | pkg/core/events.go:85-109 | in every run, a subscription of that snapshot has got the event or holds it, unless it was closed, or the event is not addressed to its user, or its buffer was full to capacity at that one turn |
| Events.GotOnlyOwnEvents | pkg/core/events.go:98-104 | whatever a subscription has got or holds was addressed to its user, unless it listens to all |
| Events.NoDeadlock | pkg/core/events.go:19-109 | as long as some goroutine is inside an operation, some goroutine can move |
| EventProgress.ProgressIsMade | pkg/core/events.go:19-109 | every step that a running operation takes, whoever else waits, brings all of them nearer to their end: less is left of subscribing, unsubscribing and closing, or the same of these and less of emitting |
| EventProgress.AllFinish | pkg/core/events.go:19-109 | so from every state that keeps the invariants such steps lead to one where nobody is inside an operation |
| EventProgress.OperationsFinish | pkg/core/events.go:19-109 | from every reachable state the operations begun can all finish without a new one and without any receiver |
| Events.RunKeepsInv | pkg/core/events.go:19-109 | the lock, reference, closing, stream and turn invariants hold after every run |
| Events.AnybodyMayStart | pkg/core/events.go:19-109 | an idle goroutine may start any call in any state, and whatever is buffered may be received |
| Events.WaitingReceiverGets | pkg/core/events.go:93-107 | a waiting receiver gets an event for it at once, whatever the size of the buffer |
| Events.StepKeepsSafety | pkg/core/events.go:19-109 | every step keeps who holds which lock, and that a flag is set before its channel closes |
| Events.StepKeepsHistory | pkg/core/events.go:85-109 | every step keeps the streams and the count of turns |
| Emitter.Subscription.Close | pkg/core/events.go:19-30 | the first call takes the subscription out of the table and closes its channel, any other does nothing |
| Emitter.Subscription.Offer | pkg/core/events.go:93-107 | one turn of EmitUser: the buffer of an open subscription to that user, or to all, grows by the event if it has room, and otherwise stays; that is the outcome of the concurrent model, and a closed channel is never met |
| Emitter.EventEmitter.SubscribeUser | pkg/core/events.go:61-75 | a new id, a buffer of the current size, and nobody else changes |
| Emitter.EventEmitter.EmitUser | pkg/core/events.go:85-109 | the loop gives every subscription of the table its turn: exactly the open ones of that user, or of all users, with room in their buffers get the event, and no other buffer changes |
| Emitter.EmitIsARun | pkg/core/events.go:85-109 | an emission nobody interrupts is a run of the concurrent model with the same buffers and turns |
| Emitter.SubscribeIsARun | pkg/core/events.go:61-75 | so is SubscribeUser, with a new id, the current size and a place in the table |
| Emitter.SetBufferIsARun | pkg/core/events.go:47-53 | and SetBufferSize, which changes no subscription that is there |
| Emitter.CloseIsARun | pkg/core/events.go:19-30 | and Close, which the first time takes the subscription out of the table and closes its channel, and the second time does nothing |
| Reconnect.StopChannelsAreSafe | pkg/irc/connection.go:134-162 | in every interleaving every stop channel ever replaced is closed, none twice; connecting starts only from neither connected nor connecting; and after Disconnect has returned unwanted no attempt starts until the connection is wanted |
| Reconnect.OnlyOpenChannelsClose | pkg/irc/connection.go:134-162 | seen at the steps: a stop channel about to be closed is open, and a fresh one was never closed |
| Reconnect.AttemptsStartFromRest | pkg/irc/connection.go:134-149 | and whatever step makes the connection start connecting finds it disconnected or disconnecting, and no Disconnect has returned unwanted since it was last wanted |
| Reconnect.QuietIs | pkg/irc/connection.go:494-526 | which is recorded from the end of such a Disconnect until somebody wants the connection |
| Reconnect.AnybodyMayBegin | pkg/irc/connection.go:134-526 | an idle goroutine may call Connect or Disconnect in any state, and with a client its callbacks may come |
| Reconnect.LoopsWaitOnLiveChannels | pkg/irc/connection.go:628-669 | a waiting loop holds the current stop channel or a closed one, never none, with a delay from two seconds to five minutes |
| Reconnect.DisconnectWakesLoops | pkg/irc/connection.go:494-526 | when Disconnect is about to return, every waiting loop can leave at once |
| Reconnect.AttemptsStartIdle | pkg/irc/connection.go:134-149 | at most one goroutine is about to start connecting, and what it has checked still holds whatever the callbacks did since |
| Reconnect.RunKeepsInv | pkg/irc/connection.go:134-669 | the lock, channel and per-goroutine invariants hold after every run |
| Connector.Connection.Connect | pkg/irc/connection.go:134-490 | nothing for a connection that is up or coming up, or is not wanted; else a fresh open stop channel in place of the old one, which ends up closed, and the state that the dial leaves; a closed channel is never closed again |
| Connector.Connection.Disconnect | pkg/irc/connection.go:494-526 | leaves a fresh stop channel, closed, and the old one closed too, and never panics |
| Connector.Connection.ReconnectLoop | pkg/irc/connection.go:628-669 | goes round again exactly when the timer came first, the connection is wanted and the dial failed, with the delay of that round |
| Connector.DelayIsCapped | pkg/irc/connection.go:664-667 | round k waits twice 2 to the power of k seconds, 300 at most |
| Connector.LostStartsALoop | pkg/irc/connection.go:321-340 | the loss of a connection starts a reconnect loop with two seconds exactly if the connection is wanted |
| Connector.LoopGoesRound | pkg/irc/connection.go:628-669 | in a round that nobody interrupts the loop ends with a new attempt under way and a fresh stop channel if the dial works, and otherwise waits again, twice as long, 300 seconds at most |
| Connector.LostComesBack | pkg/irc/connection.go:321-669 | so from every state in which a wanted connection has just been lost, some run has a new attempt under way |
| Connector.ConnectedIsARun | pkg/irc/connection.go:245-252 | and the callback of a connection that is up makes it connected |
| Connector.ConnectIsARun | pkg/irc/connection.go:134-490 | a Connect nobody interrupts is a run of the concurrent model |
| Connector.DisconnectIsARun | pkg/irc/connection.go:494-526 | so is a Disconnect |
| Irc.Connection.HandleJoin | pkg/irc/handlers.go:160-209 | the only change is one entry in the roster of that channel, which is created if need be |
| Irc.Connection.HandlePart | pkg/irc/handlers.go:213-241 | our own PART drops the channel, another removes one entry, nothing else changes |
| Irc.Connection.HandleKick | pkg/irc/handlers.go:269-299 | the same for the target of a KICK, without looking at ignore masks |
| Irc.Connection.HandleQuit | pkg/irc/handlers.go:244-266 | the nick leaves every roster |
| Irc.Connection.HandleNick | pkg/irc/handlers.go:315-351 | the entry is renamed in every roster; our own change also sets the nick and ends a running repair |
| Irc.Connection.HandleNamesReply | pkg/irc/handlers.go:594-622 | every entry of the line joins the batch and the roster |
| Irc.Connection.HandleEndOfNames | pkg/irc/handlers.go:626-636 | hands out the batch and forgets it |
| Irc.SkipPrefixes | pkg/irc/utils.go:37-56 | the loop over the prefixes of a NAMES entry computes `ParseNickMode` |
| IrcLaws.EntryRoundTrip | pkg/irc/utils.go:61-66 | an entry with its prefixes (`~&@%+` for q, a, o, h, v), nick, user and host is taken apart as it was put together |
| IrcLaws.FoldsCase | pkg/irc/handlers.go:362-404 | names are taken for equal exactly if they differ in the case of letters only |
| IrcLaws.RostersFollowMembership | pkg/irc/handlers.go:160-351 | from empty rosters, whatever the server truthfully sends, each joined channel's roster holds members only, all of them as soon as no NAMES batch is open, and every key is the nick of its entry |
| IrcLaws.NamesEndKeeps | pkg/irc/handlers.go:626-636 | at the 366 numeric the roster equals the membership |
| IrcLaws.NickKeeps | pkg/irc/handlers.go:342-348 | a nick change keeps rosters and membership in step |
| IrcLaws.NamesLineKeeps | pkg/irc/handlers.go:616-621 | so does a line of the batch, which settles the members it lists |
| IrcLaws.MessageKeeps | pkg/irc/handlers.go:160-351 | so does every message |
| IrcLaws.RenameIsExact | pkg/irc/handlers.go:342-348 | a rename leaves the right set of nicks if and only if it does not rename a listed nick to itself, which removes the entry |
| IrcLaws.RenameKeepsEntries | pkg/irc/handlers.go:342-348 | and a renamed entry keeps everything but its nick, while all others stay |
| IrcLaws.JoinedEntries | pkg/irc/handlers.go:160-209 | a JOIN puts in the entry it came with and leaves all other entries of all channels alone |
| Irc.SplitModes | pkg/irc/handlers.go:485-532 | the loop over the mode letters: user letters with their own arguments, all others compressed |
| Irc.Connection.HandleMode | pkg/irc/handlers.go:485-542 | the compressed string updates the tracked modes of that conversation and of no other; rosters stay |
| Irc.Conversation.UpdateModes | pkg/core/conversation.go:147-169 | the loop merges the signed letters in order |
| Irc.Conversation.AddParticipant | pkg/core/conversation.go:199-203 | one entry under its own nick |
| Irc.Conversation.RemoveParticipant | pkg/core/conversation.go:206-210 | one entry less |
| IrcLaws.CompressKeepsMeaning | pkg/irc/handlers.go:517-526 | parsed again, a compressed string gives exactly the signed letters it was made of, in order, whatever sign the parser starts with |
| IrcLaws.SignHolds | pkg/core/conversation.go:147-169 | where a sign holds for all letters behind it, up to the next sign |
| IrcLaws.LastSignWins | pkg/core/conversation.go:147-169 | a tracked mode (invite_only, moderated, password, prevent_external_send, topic_protection for i, m, k, n, t) has the sign of its last letter |
| IrcLaws.TakersAre | pkg/irc/handlers.go:499-530 | o, v, h, a and q are about users as long as arguments last; they and k, b, e, I, and l with a plus, take an argument |
| IrcLaws.ModeStringKeepsMeaning | pkg/irc/handlers.go:534-539 | so UpdateModes reads the channel letters of the original |
| IrcLaws.OwnArguments | pkg/irc/handlers.go:499-515 | no two user letters share an argument and none is out of range |
| IrcLaws.NoLetterIsLost | pkg/irc/handlers.go:492-532 | the user letters and the channel letters, each with its sign, are together the signed letters of the string: as multisets, so each ends up in exactly one of the two parts |
| IrcLaws.CalculateModes | assets/js/util.js:43-56 | the frontend's loop, with the sign it puts in front, applies the signed letters in order |
| IrcLaws.LastSignCounts | assets/js/util.js:43-56 | there, too, a mode has the sign of its last letter |
| IrcLaws.FrontendReadsTheSame | assets/js/util.js:43-56 | the frontend reads from the compressed string the channel letters of the original |
| Irc.Connection.OnConnected | pkg/irc/connection.go:245-271 | takes the assigned nick, and if that differs from the desired one other than in case, and only then, asks for the desired nick with one underscore |
| Irc.Connection.HandleNickInUse | pkg/irc/handlers.go:362-404 | sends the named nick with one more underscore before registration, and afterwards exactly if a repair is running and the name is, up to case, what it has asked for, which becomes the new base |
| IrcLaws.RepairsGrow | pkg/irc/handlers.go:362-404 | after a collision at registration, whatever 433s and nick changes follow, the repairs are the desired nick with a strictly growing run of underscores up to case, so none is sent twice |
| IrcLaws.OnlyDueAttemptsMatter | pkg/irc/handlers.go:362-404 | after a collision at registration, a 433 counts exactly when it names, up to case, the last nick the repair has asked for: all others can be left out of any run without changing anything, and each of these sends the nick it names with one more underscore |
| IrcLaws.NoRepairAfterNickChange | pkg/irc/handlers.go:325-331 | after our own nick change no repair is sent until the next registration |
| IrcLaws.OwnChangeEndsRepair | pkg/irc/handlers.go:325-331 | which takes the new nick and ends a running repair |
| IrcLaws.UnregisteredRetries | pkg/irc/handlers.go:383-387 | before registration every 433 is answered with one more underscore |
| Markdown.I18N.MakeTagLoop | assets/store/I18N.js:125-159 | the loop over the rules, which rewrites its text and collects children, computes `MakeTag` and terminates on every input |
| Markdown.ApplyShrinks | assets/store/I18N.js:131-156 | the parts a handler cuts a text into are shorter than it, or get no rules |
| MarkdownText.ApplyConserves | assets/store/I18N.js:161-229 | whatever a rule cuts out of a text is exactly one piece of its markup, around the content: the same mark before and behind, the first one that closes, with no white space behind the one that opens; a colour code and its end; the brackets and the target of a link; the scheme of a URL, which has no white space in it and no word in front; nothing for a channel name, which is a letter and one or more name characters with white space in front and none of these behind; with the tag and the attributes for it. Otherwise the text stays, but for one backslash |
| MarkdownText.OnlyMarksAreLost | assets/store/I18N.js:125-159 | the text of the tree without mark characters is the message without mark characters, for every message without a link, URL, colour code or backslash, and behind the "> " of a quotation |
| MarkdownTags.MarksMakeTags | assets/store/I18N.js:109-217 | each of the nine marks around a text, in a message without other markup, becomes the HTML it stands for, with all the text around it and in it |
| MarkdownTags.LinksMakeAnchors | assets/store/I18N.js:201-205 | a link shows its text and leads to its target, in a new window exactly if the target has a scheme |
| MarkdownTags.UrlsMakeAnchors | assets/store/I18N.js:219-229 | a URL leads to itself and shows itself, without https:// and mailto:; punctuation behind it is text |
| MarkdownTags.ChannelsMakeAnchors | assets/store/I18N.js:161-169 | a channel name leads to the channel's page |
| MarkdownTags.ColoursMakeClasses | assets/store/I18N.js:171-185 | a colour becomes a class for its numbers |
| MarkdownTags.QuotesMakeBlockquotes | assets/store/I18N.js:126-128 | a message that begins with "> " is a quotation of the rest |
| MarkdownLaws.FormatLaw | assets/store/I18N.js:125-240 | for every message a strict reader gets the text of the tree back from the HTML if and only if no dollar in a link target or URL of the message, pairs taken out, stands before a backquote or a character to be escaped with an ampersand, and rejects it otherwise; that text is a subsequence of the message; and without a dollar sign nothing can go wrong |
| MarkdownLaws.TreeIsPlain | assets/store/I18N.js:201-238 | of all handlers only those for links and URLs can make an attribute that inserts a bracket, exactly for such targets |
| MarkdownLaws.LinkIsRejected | assets/store/I18N.js:201-238 | a message that is just a link, without marks, is rejected exactly when its target is one of these |
| MarkdownLaws.DollarAmpersandIsRejected | assets/store/I18N.js:231-240 | the message `[a]($&)` is rejected |
| MarkdownLaws.TextIsKept | assets/store/I18N.js:125-159 | the leaf texts before escaping, concatenated, are a subsequence of the message |
| MarkdownLaws.ReadNode | assets/store/I18N.js:231-240 | rendered tags nest and raw angle brackets occur only in tags exactly when no attribute holds a replacement pattern that inserts one |
| MarkdownLaws.ReadText | assets/store/I18N.js:158-158 | escaped text reads back as itself |
| MarkdownLaws.ReadExpanded | assets/store/I18N.js:237-238 | attributes put in through a replacement string read as attributes exactly when they are harmless |
| MarkdownLaws.TreeIsOk | assets/store/I18N.js:161-229 | no handler makes an attribute that ends its quotes |
| MarkdownLaws.ApplyKeeps | assets/store/I18N.js:161-229 | the three parts of a cut, put together, are a subsequence of the text |
| Socket.Socket.Send | assets/js/Socket.js:193-200 | queues the message under its id, opens the socket if need be and drains the queue if it is open |
| Socket.Socket.Dequeue | assets/js/Socket.js:202-214 | the loop writes the queue in order and puts every message among the waiting ones, or does nothing |
| Socket.Socket.Open | assets/js/Socket.js:151-171 | nothing with a socket or without a usable URL; else a connecting socket, a running keepalive and no reconnect timer |
| Socket.Socket.Close | assets/js/Socket.js:62-70 | clears both timers and forgets the socket |
| Socket.Socket.MarkDropped | assets/js/Socket.js:229-232 | the loop over the waiting messages at a close |
| Socket.Socket.OnClose | assets/js/Socket.js:226-238 | one close more, no socket, and a reconnect as reconnectIn() says |
| Socket.Socket.OnMessage | assets/js/Socket.js:247-264 | a reply takes its id out of `waiting`, an error without an id empties it |
| Socket.Socket.OnOpen | assets/js/Socket.js:266-270 | resets the count of closes and drains the queue |
| Socket.Socket.ReconnectStart | assets/js/Socket.js:272-279 | at most one reconnect timer, none if the answer is now or never |
| SocketLaws.NothingIsLost | assets/js/Socket.js:193-214 | in every run what was written to all sockets followed by the queue is what was passed to send(): nothing lost, duplicated or reordered |
| SocketLaws.AutoIdsAreDistinct | assets/js/Socket.js:194-194 | ids of the socket's own making are pairwise distinct |
| SocketLaws.DecimalShows | assets/js/Socket.js:194-194 | and are the numbers of the messages in decimal |
| SocketLaws.NoTimerBesideASocket | assets/js/Socket.js:151-290 | in every run a socket and an armed reconnect timer never coexist, the keepalive runs exactly with a socket, no timer is forgotten, and an open socket has been given everything |
| SocketLaws.LeavesOnlyWhenSettled | assets/js/Socket.js:226-264 | an id leaves `waiting` if and only if its reply, an error without an id, or an explicit delete comes; never by a close |
| SocketLaws.StillWaiting | assets/js/Socket.js:226-264 | over a whole run an id still waits as long as none of these came |
| SocketLaws.WrittenWaits | assets/js/Socket.js:202-214 | whatever an event writes waits right after it under its id, with the body passed to send(), a time stamp and `waitingForResponse` true; of messages with the same id the last |
| SocketLaws.WrittenStillWaits | assets/js/Socket.js:202-264 | so in every run a written message still waits as long as nothing has settled its id |
| SocketLaws.CloseMarks | assets/js/Socket.js:226-232 | a `close` event takes nothing out of `waiting` and sets `waitingForResponse` of everything in it to false |
| SocketLaws.KeysOf | assets/js/Socket.js:229-232 | what decides whether a message is kept: its id and the keys it was passed with, and two more once it is written |
| SocketLaws.ClosedCounts | assets/js/Socket.js:226-270 | `closed` counts the `close` events since a WebSocket last opened |
| SocketLaws.DelaysAre | assets/js/Socket.js:182-185 | the delays are one second, then four, six and eight, then ten |
| SocketLaws.ComesBack | assets/js/Socket.js:182-279 | unless the code was 1008 or 1011, a lost socket arms one timer of one to ten seconds, longer after more closes; when it has run out and the new socket opens, everything still queued is written |
| SocketLaws.CloseIsExact | assets/js/Socket.js:51-70 | after any run, close() keeps the socket closed, without a timer, for exactly as long as nobody sends or opens with a working URL and no `close` event is answered by a time, or by now with a working URL |
| SocketLaws.CloseHoldsInQuietRuns | assets/js/Socket.js:51-70 | what a caller can check: after any run, close() keeps the socket closed as long as nobody calls send() or open() and every `close` event is answered by never, whatever else happens |
| SocketLaws.CloseEventReopens | assets/js/Socket.js:226-279 | of the answers to a `close` event only never leaves a closed socket with a working URL closed: now opens a new one, a time does so when it has run out |
| SocketLaws.OwnCloseEventReopens | assets/js/Socket.js:182-238 | with reconnectIn() as it is, the `close` event that close() brings about leaves it closed if and only if its code is 1008 or 1011 |
| SocketLaws.CloseDoesNotLast | assets/js/Socket.js:62-70 | from the start, open(), close(), the `close` event of the old socket and the timer it arms end with a new socket |
| SocketLaws.LateCloseDropsTheNewSocket | assets/js/Socket.js:226-236 | from the start, a run in which the late `close` event of a replaced socket takes the new, open one away |
| SocketLaws.KeepClosedSays | assets/js/Socket.js:62-171 | `keepClosed` is set by close() and by an answer of never, and cleared when a WebSocket is made |
| Reactive.Reactive.Update | assets/js/Reactive.js:126-136 | the loop remembers the first value of a batch, sets writable properties and arms the flush |
| Reactive.Reactive.DelayedUpdate | assets/js/Reactive.js:166-182 | the loop stores and reports exactly the properties that differ and emits at most one event |
| Reactive.Reactive.DefineProp | assets/js/Reactive.js:84-105 | a stored property starts with its stored value, or the default |
| ReactiveLaws.BatchIsOneUpdate | assets/js/Reactive.js:126-136 | any sequence of updates before a flush equals one update with the final values |
| ReactiveLaws.FlushIsExact | assets/js/Reactive.js:166-182 | a writable property is reported true if and only if its final value is not identical to the one the batch found, a named read-only one false, in at most one event, after which nothing is pending |
| ReactiveLaws.ListenersKeepUp | assets/js/Reactive.js:126-182 | in every run a listener that only follows the events knows every value whenever no flush is due |
| ReactiveLaws.LoadsAgain | assets/js/Reactive.js:184-204 | in every run, whenever no flush is due, loading a stored property gives its value if and only if that is JSON other than null, or the default |
| ReactiveLaws.ReloadFinds | assets/js/Reactive.js:84-204 | and defining the property anew in a page with the same stores gives that value, and leaves every other slot alone |
| ReactiveLaws.FlushStores | assets/js/Reactive.js:166-197 | exactly the changed cookie properties are written to the cookies and the changed persistent ones to the local storage, each under its name: as JSON, which has null for NaN and infinity; a default, and an undefined cookie, is taken out |
| ReactiveLaws.EntryIsKept | assets/js/Reactive.js:184-197 | what is stored, read back with the default to fall back on, is the value if it is JSON other than null, else the default |
| EmbedCache.Client.Lookup | pkg/embed/embed.go:128-133 | a hit is a cached entry younger than the TTL |
| EmbedCache.Client.Store | pkg/embed/embed.go:200-207 | the eviction loop computes `Stored`, panics included |
| EmbedCache.CacheIsSound | pkg/embed/embed.go:127-207 | in every interleaving of fetches every cached URL is on the order list, eviction never indexes an empty list, at most MaxEntries entries remain, and a hit is the latest preview stored for its URL |
| EmbedCache.FreshIsServed | pkg/embed/embed.go:127-133 | and a fetch is answered from the cache exactly if its URL is cached and the latest preview has not expired, then with that preview; else the fetch goes on |
| EmbedCache.StoredIsServed | pkg/embed/embed.go:127-207 | a preview just stored is found at once, unless its own store has evicted it |
| EmbedCache.SurvivorsAreTheLatest | pkg/embed/embed.go:200-207 | if no URL is stored twice, the cached ones are exactly the last MaxEntries stored |
| EmbedCache.StoreEvictsTheFirst | pkg/embed/embed.go:200-207 | whatever duplicates the list holds, a store evicts nothing while there is room or the URL is cached, else exactly the first listed entry, the new one included |
| EmbedCache.PanicsIff | pkg/embed/embed.go:203-206 | eviction indexes an empty list if and only if MaxEntries is negative |
| EmbedCache.ListedOnceIsOldest | pkg/embed/embed.go:203-206 | the entry that goes, if the list names it once, is the least recently stored of all cached ones |
| EmbedCache.StoredTwiceMayGoFirst | pkg/embed/embed.go:200-207 | without such a condition it need not be: after a second store of the same URL a preview can be evicted by its own store while an older one stays |
| EmbedCache.TheListGrows | pkg/embed/embed.go:202-202 | one URL fetched n times leaves one cached entry and a list of length n |

## Left out

- Files, directories, JSON persistence, `DeleteMessages`, `SearchMessages`, `MarkAsRead` and the escaping of log paths: input and output; a store is a map from month to content.
- Cursors outside UTC, and cursor strings: a cursor is a time, and one that does not parse is the zero time, as the code has it.
- Logs with `\r\n`, and log files that are out of order, hold messages of another month or end in the middle of a line: excluded by `FileOk`.
- HistoryLaws.ForwardIsExact: its only-if side uses limits above 200, which the function has and a query does not; `LongLineHidesASecond` gives a case for each limit a query has, but not every case.
- PagingForward.PageOn: the time `now` is the same in all requests of a client; it only bounds windows that reach a month into the future.
- Texts are bytes: white space other than ASCII in `TrimSpace`, and a break inside a UTF-8 sequence, do not appear.
- Error and reaction messages, and the fields msgid, account, reply and highlight, which the log never holds: no round trip.
- Search by `match` and the HTTP layer around `buildMessagesResponse`.
- `TooLongMessages` and the other settings of a profile.
- The time stamp that `EmitUser` adds, and the contents of events, which are identified by the number of their emission.
- Channels of stop signals are numbers: nothing is ever sent on them, only closed.
- The library client: TLS, SASL, registration, and the sockets below it; a Disconnect during an in-flight dial may still end connected, so only "no new attempt starts" is stated.
- The lock of the wanted state in `Reconnect`: it is a value that may change at any step.
- Rosters that survive a reconnect or are joined a second time without leaving, ignore masks in the run property, nicks that differ only in case, and malformed messages with too few parameters.
- `strings.ToLower` and `strings.EqualFold` beyond ASCII.
- Topics, WHOIS, LIST, ISON, invites, `324` replies, the name of who changed a mode, and the request ids of `waiters.go`.
- MarkdownTags.MarksMakeTags: one piece of markup in a message without any other; how several act together is the recursion of `MakeTag` over the cuts that `ApplyConserves` describes.
- The emoji markup, the `nbsp` pass, `Object.keys().sort()` (attributes are made in sorted order), and Unicode in `\s`, `\b` and `\w` of the formatter's rules.
- Listeners and callbacks of `Socket` and `Reactive` that call back into the object while it is busy, the `error` and `reconnectAt` properties, and the texts exchanged.
- Two properties that share a storage key; slots go by the name of their property.
- Socket.Socket.Close: `WebSocket.close(code)` throws for codes other than 1000 and 3000 to 4999, and for a reason that is too long, before any field changes; the model takes a code and a reason that it accepts.
- SocketLaws.NothingIsLost: speaks of messages; the `{}` that the keepalive interval writes to an open socket is no message, and `wire` does not hold it.
- ReactiveLaws.LoadsAgain: takes for granted that storing succeeds; `btoa` throws on a cookie text outside Latin-1, and so may a full storage, which ends the flush.
- The object of cookie values between page loads: a cookie is modelled as what its JSON text holds.
- Eviction by age, which does not exist: an expired entry stays until it is stored again or evicted.
- Fetching, parsing and rendering of previews, and `findVisibleElements`.
