# Verified models of the Squad admin panel and its relay

This project models the self-contained state machines and codecs of a Squad server admin panel (C++, with a
JavaScript front end) and of the relay that runs beside the game, and proves what they keep, over every input and
every run. Code that updates fields or buffers step by step is a class or a method, proved against a function of its
old state; the properties are then proved of that function, and of runs of it. Check everything with
`dafny verify dfyconfig.toml`.

| file | what it models |
|---|---|
| `RconWire.dfy` | the bytes of RCON packets, the panel's encoder and receiver, the relay's encoder |
| `RconProtocol.dfy`, `RconClient.dfy` | one RCON connection: ids, terminators, unread packets, time-outs, reconnects; the client class over byte streams, the protocol on packets |
| `PlayerSync.dfy` | player-list diffs, the throttled broadcaster, and the page that applies the diffs |
| `Scramble.dfy` | scores, sort, snake draft, switch commands |
| `Base64.dfy`, `RateLimit.dfy` | the codec with its overflowing accumulator; the fixed-window attempt limiter |
| `Lines.dfy`, `LogTail.dfy`, `TailReader.dfy`, `ConfigFiles.dfy` | cutting text at newlines, tailing a log, reading its last lines, rewriting the server's config files |
| `SendQueue.dfy` | the relay's line deduplication and batch sender |
| `Wounds.dfy` | which wound explains a death, and the eviction of old wounds |
| `Ledger.dfy`, `Cdk.dfy` | points tables and everything that writes them; redemption codes |
| `TkForgive.dfy` | team-kill forgiveness against the task that kicks |
| `Teams.dfy`, `Servers.dfy`, `PathIds.dfy` | team and server ownership; ids in request paths |

Where the code does not do what one would expect, the model keeps the code and the lemma says exactly when it does:

- A throttled player update replaces the cache without a message, so its joins and leaves never reach the page. The
  page stays in step exactly if every throttled update shows what the cache already holds
  (`PlayerSync.StaysInStep`, `PlayerSync.ThrottledJoinIsLost`). It is right at every message exactly if what changed in
  silence changes again, or back, by then (`PlayerSync.InStepWheneverTold`).
- A receiver that refuses sizes over 65536 refuses exactly the bodies over 65526 bytes (`RconWire.ReceiveFrame`).
- The rate limiter admits up to `2 * max - 1` attempts in an interval as long as its window, and that is tight; a window
  of 0 admits `max` (`RateLimit.IntervalBound`, `RateLimit.BoundIsMet`).
- Evicting wounds never shows in the events, and shows in the lists of recent wounds unless the duplicate window is at
  most one millisecond longer than the expiry, or empty (`Wounds.EventsNeverShowCleanup`, `Wounds.CleanupIsInvisible`).
- Polling inside a line tears the line, except next to its ends (`LogTail.TornLine`); a carriage return inside a line
  is delivered (`LogTail.DeliveredExactly`). A tail buffer without a newline shows part of a line
  (`TailReader.ShowsSuffix`).
- An entry added to a config file under an id that the file's own reader reads back differently is not found, so it
  is added twice and never removed (`ConfigFiles.AddTwice`, `ConfigFiles.RemoveUndoesAdd`; `ProperSlot`,
  `ProperAdmin` and `BanKey` say which ids). An admin action other than add or remove deletes the admin and reports
  that nothing was found (`ConfigFiles.ReportIsFaithful`).
- A stopped sender takes two more batches if it was asleep or about to flush, and one if it was testing its loop or
  posting; everything behind them is lost, and so is every line added after the last of them, which can happen as the
  relay stops its log tail after its sender (`SendQueue.StopLoses`, `SendQueue.StopLosesNothing`).
- Balances and the points log part exactly when a player without a row is credited for a server that is not in the
  servers table, or draws a negative reward in a lottery without a fee (`Ledger.ConservesUnlessUnbacked`). Earned
  points fall below the balance exactly by deducting a negative amount (`Ledger.EarnedCoversBalance`). Awards are booked
  unchecked, so a penalty can take a balance below zero; so can a negative grant or draw, and nothing else
  (`Ledger.NoDebtUnlessOverdrawn`, `Ledger.PenaltyMakesDebt`).
- An apology that was read in time but is written after the kicker's query leaves a record both forgiven and kicked
  (`TkForgive.StepKeepsInv`, `TkForgive.UnsafeBreaks`, `TkForgive.LateApology`).
- The guards that keep an owner from leaving compare ids as text, the database compares them as numbers. An owner
  that spells its own id with leading zeros gets past them, and only so (`Teams.OwnersBelongUnlessSlip`,
  `Servers.OwnedUnlessOrphaned`).

## Model

| member | source | states |
|---|---|---|
| `RconWire.Le32RoundTrip` | src/net/rcon.cpp:41-62 | the bytes of a word on a little-endian host give the word back |
| `RconWire.WriteI32IsLe32` | relay/main.cpp:350-351 | the relay's shifted and masked bytes of a signed integer are the bytes the panel copies from memory |
| `RconWire.ReadWriteI32` | relay/main.cpp:350-351 | the relay reads back every 32-bit integer it writes, negative ones included |
| `RconWire.EncodePacket` | src/net/rcon.cpp:41-62 | the panel's buffer, filled in place, is the frame of the packet: size, id, type, body, two NULs, in that order |
| `RconWire.Pack` | relay/main.cpp:445-451 | the relay's buffer is byte for byte the panel's frame of the same packet |
| `RconWire.FrameParts` | src/net/rcon.cpp:41-62 | where each field of a frame lies, whatever follows it: ten more than the body, the id, the type, the body, two NULs |
| `RconWire.ReceiveFrame` | src/net/rcon.cpp:64-90 | the receiver returns a sent packet, and leaves exactly what followed it, if and only if its body has at most 65526 bytes |
| `RconWire.SizeLimits` | src/net/rcon.cpp:64-90 | only sizes from 10 to 65536 are accepted, and only once that many bytes are there |
| `RconWire.ReceiveTruncated` | src/net/rcon.cpp:64-90 | a frame cut anywhere yields no packet |
| `RconWire.ReceiveAllFrames` | src/net/rcon.cpp:41-90 | a stream of frames with an incomplete one at the end decodes to exactly the packets sent, NULs in bodies included |
| `RconWire.FramesConcat` | src/net/rcon.cpp:41-62 | the stream of two lists of packets is one stream after the other |
| `RconProtocol.CollectMeaning` | src/net/rcon.cpp:109-131 | the reading loop returns the bodies of its command's id among the packets it read, and sees its terminator exactly if the first echo lies within the cap and the arrivals |
| `RconProtocol.StaleAddNothing` | src/net/rcon.cpp:94-133 | unread packets of earlier calls add nothing to a reply |
| `RconProtocol.NothingAfterEcho` | src/net/rcon.cpp:94-133 | stopping at the first echo loses nothing of an in-order reply |
| `RconProtocol.ConverseReturnsOwnReply` | src/net/rcon.cpp:94-133 | a call that sees its terminator returns exactly the bodies sent under its own command, in order, and leaves only packets older than the next id |
| `RconProtocol.TerminatorReached` | src/net/rcon.cpp:94-133 | the terminator is reached if and only if unread packets plus the reply up to the echo fit in the cap and arrive in time |
| `RconProtocol.ResponseIsPrefix` | src/net/rcon.cpp:94-133 | without the terminator the result is still the bodies of a prefix of the call's own reply |
| `RconProtocol.StepSettles` | src/net/rcon.cpp:94-202 | execute and ping, with their reconnects, keep every unread id below the next id |
| `RconProtocol.RunReturnsOwnReplies` | src/net/rcon.cpp:94-202 | over every run of execute and ping on one client, each call that sees its terminator returns exactly its own reply |
| `RconProtocol.OneBody` | src/net/rcon.cpp:126-128 | what a packet adds to the reply of an id: its body if it carries the id, else nothing |
| `RconProtocol.ReadingCaps` | src/net/rcon.cpp:94-202 | an execute sees its terminator within 64 packets and a ping within 4, unread ones included, or not at all |
| `RconProtocol.RefusedWhen` | src/net/rcon.cpp:94-202 | an execute is refused exactly if the client is down and dialling or logging in fails; a ping never dials |
| `RconProtocol.StepSpeaks` | src/net/rcon.cpp:94-202 | what a call writes, from its arguments and the outcome its caller sees: its own command under the next id with type 2, then the empty terminator, as far as the sends work; a new socket starts with the password in a packet of type 3 |
| `RconProtocol.TellKeepsOrder` | src/net/rcon.cpp:94-202 | so what a socket carries is the auth packet and then packets of type 2 with ids that rise by one, every second one empty |
| `RconProtocol.RunSaysItsCalls` | src/net/rcon.cpp:94-202 | over every run, with time-outs, failed sends and reconnects, the packets on the latest socket are those its calls account for, in that order |
| `RconProtocol.OutboxReadsBack` | src/net/rcon.cpp:41-90 | the other side reads exactly these packets, and nothing of one that is cut off |
| `RconClient.Client.constructor` | src/net/rcon.cpp:17-24 | a new client is closed and hands out id 1 first |
| `RconClient.Client.Disconnect` | src/net/rcon.cpp:32-39 | closing drops the connection and what was unread, and keeps the next id |
| `RconClient.Client.SendPacket` | src/net/rcon.cpp:41-62 | the frame is appended to the stream, or the connection is marked as lost |
| `RconClient.Client.RecvPacket` | src/net/rcon.cpp:64-90 | result and remaining stream are those of the receiver on bytes |
| `RconClient.Client.RecvFrom` | src/net/rcon.cpp:64-90 | on a stream of frames it yields the first packet and leaves the frames of the others |
| `RconClient.Client.AwaitAuth` | src/net/rcon.cpp:178-182 | access is granted exactly if two answers come and the second does not carry -1 |
| `RconClient.Client.LogIn` | src/net/rcon.cpp:176-185 | the auth packet is the first on the new socket, and the outcome follows the answers |
| `RconClient.Client.ConnectInternal` | src/net/rcon.cpp:137-186 | dialling and logging in change the connection as the protocol says, in every outcome |
| `RconClient.Client.Connect` | src/net/rcon.cpp:26-30 | does nothing on a connected client, else dials |
| `RconClient.Client.ReadReply` | src/net/rcon.cpp:109-131 | the loop over bytes returns and consumes what the packet-level reading does |
| `RconClient.Client.AwaitEcho` | src/net/rcon.cpp:189-202 | the ping's loop over bytes does what the packet-level reading does with its smaller cap |
| `RconClient.Client.Talk` | src/net/rcon.cpp:104-132 | on a connection that is up: the command and its terminator, then the reading loop |
| `RconClient.Client.Execute` | src/net/rcon.cpp:94-133 | result and new state, the packets written included, are those of the protocol; the bytes written are their frames |
| `RconClient.Client.Probe` | src/net/rcon.cpp:192-201 | on a connection that is up: two empty packets, then the reading loop |
| `RconClient.Client.Ping` | src/net/rcon.cpp:189-202 | alive if the echo came or the cap was reached; the new state is that of the protocol |
| `PlayerSync.KeyedFacts` | src/net/ws_handler.cpp:166-171 | keying a list keeps its ids, and every player of a list with unique ids |
| `PlayerSync.CalculateDiff` | src/net/ws_handler.cpp:158-200 | the computed diff is the plain definition of joined, left and changed |
| `PlayerSync.EmptyCache` | src/net/ws_handler.cpp:190-197 | the special branch for an empty cache gives what the general case would |
| `PlayerSync.ApplyDiff` | public/js/modules/servers/index.js:1772-1789 | the page's in-place updates of its map are the patch of that map |
| `PlayerSync.PatchPointwise` | public/js/modules/servers/index.js:1772-1789 | what a patched map holds for each id: the new view where cached and current differ, and what it held elsewhere |
| `PlayerSync.InStepAfter` | public/js/modules/servers/index.js:1772-1789 | a page equals the current list after a diff if and only if it agreed with the cache wherever cache and current list agree |
| `PlayerSync.DiffThenPatch` | src/net/ws_handler.cpp:158-200 | applying the diff of cached and current to the cached list yields the current one |
| `PlayerSync.DiffIds` | src/net/ws_handler.cpp:158-200 | which ids join, leave and change, as sets: only here, only there, and in both with a different view |
| `PlayerSync.DiffIsMinimal` | src/net/ws_handler.cpp:158-200 | the three parts are disjoint, and every diff that does the same removes and writes at least those players |
| `PlayerSync.DiffByFields` | src/net/ws_handler.cpp:158-200 | player by player: changed are those with another name, team or squad than before, joined and left go by the ids, nobody is listed twice, and the count is that of the current list |
| `PlayerSync.PageShowsPlayers` | public/js/modules/servers/index.js:1772-1789 | after the diff the page has exactly the current players, each with its own name, team and squad |
| `PlayerSync.WsHandler.BroadcastPlayerUpdate` | src/net/ws_handler.cpp:112-135 | the new caches and the message sent, or none: a throttled call sends nothing, yet the cache advances; any other call sends its diff, even an empty one |
| `PlayerSync.WsHandler.GetPlayerSnapshot` | src/net/ws_handler.cpp:138-143 | the snapshot is the cached list, empty for an unknown server |
| `PlayerSync.StaysInStep` | src/net/ws_handler.cpp:112-135 | over every run a page started from the snapshot equals the cache after every update, if and only if every throttled update shows what the cache already held |
| `PlayerSync.UnthrottledStaysInStep` | src/net/ws_handler.cpp:112-135 | with no call inside the throttle window the page never drifts |
| `PlayerSync.ThrottledJoinIsLost` | src/net/ws_handler.cpp:112-135 | a player who joins in a throttled update is never sent, though the cache has the player |
| `PlayerSync.InStepWheneverTold` | src/net/ws_handler.cpp:112-135 | over every run a page equals the cache after every message it gets, if and only if each message touches every id that changed in silence since the last one and did not change back |
| `PlayerSync.ThrottledVisitIsHarmless` | src/net/ws_handler.cpp:112-135 | a player who joins and leaves within the throttle window leaves the page right at every message, though not in between |
| `PlayerSync.SilentWhenRecent` | src/net/ws_handler.cpp:112-135 | over every run, an update is kept from the pages exactly if the last one announced for its server is less than the interval ago |
| `Scramble.ScoreAll` | src/handlers/misc_handler.cpp:144-161 | each player's score is half the share of the longest playtime plus half the share of the best ratio, with the fallbacks for empty maxima |
| `Scramble.ScoreBounds` | src/handlers/misc_handler.cpp:144-161 | every score lies between 0 and 1 |
| `Scramble.KdMeaning` | src/handlers/misc_handler.cpp:147-150 | the ratio times the deaths is the kills, and without deaths it is the kills |
| `Scramble.BetterScores` | src/handlers/misc_handler.cpp:144-161 | who has at least the playtime and kills and at most the deaths of another never scores lower |
| `Scramble.Extremes` | src/handlers/misc_handler.cpp:144-161 | the best in both figures scores 1, the best in one with nothing in the other 1/2, and nothing in either 0 |
| `Scramble.SortByScore` | src/handlers/misc_handler.cpp:163-165 | the result is a descending permutation |
| `Scramble.SnakeAssign` | src/handlers/misc_handler.cpp:22-35 | the loop deals the i-th best player as 1, 2, 2, 1, repeating |
| `Scramble.DraftPartitions` | src/handlers/misc_handler.cpp:22-35 | the two teams are a partition of the players |
| `Scramble.DraftSizes` | src/handlers/misc_handler.cpp:22-35 | the exact difference of the team sizes for every number of players, never more than one |
| `Scramble.LeadIsDifference` | src/handlers/misc_handler.cpp:22-35 | the running lead is the difference of the teams' totals |
| `Scramble.DraftIsFair` | src/handlers/misc_handler.cpp:22-35 | after the sort the totals differ by at most best minus worst score for an even count, and by at most the best score for an odd one |
| `Scramble.BoundsAreMet` | src/handlers/misc_handler.cpp:22-35 | for every number of players some sorted list attains the bound: an even one for any best and worst score, an odd one for any best score |
| `Scramble.FindSwitches` | src/handlers/misc_handler.cpp:167-178 | exactly the players now on the other team, team 1 first |
| `Scramble.SwitchesReachAssignment` | src/handlers/misc_handler.cpp:167-191 | toggling exactly those puts every player of team 1 or 2 on the assigned team, and leaves players of neither |
| `Scramble.FairDeal` | src/handlers/misc_handler.cpp:144-178 | whatever descending order the sort picks, the deal keeps all players, with sizes within one and totals within the best score, less the worst for an even count |
| `Scramble.ScrambleTeams` | src/handlers/misc_handler.cpp:93-191 | the whole route: refused below four players; otherwise every player is scored from the figures of all, the teams are the draft of a descending order of them, sizes and totals are fair, and with distinct ids the switch commands take every team player of the game to the assigned team |
| `Base64.Base64Encode` | src/core/auth.cpp:89-103 | the loop's output is the encoding, group by group with padding |
| `Base64.EncodedLength` | src/core/auth.cpp:89-103 | the output has 4 * ceil(n / 3) characters |
| `Base64.LetterIsInAlphabet` | src/core/auth.cpp:89-114 | the 64 letters in the order of the standard, and which characters decode to which |
| `Base64.EncodingSpells` | src/core/auth.cpp:89-103 | group by group, the four characters and the three bytes are the same number in base 64 and base 256, and padding stands exactly where no byte reaches |
| `Base64.Base64Decode` | src/core/auth.cpp:105-125 | the loop's output is that of the accumulator as a 32-bit word that wraps |
| `Base64.Wrap` | src/core/auth.cpp:105-125 | twelve low bits of the wrapping word are those of the last two letters, whatever it held before |
| `Base64.Octets` | src/core/auth.cpp:105-125 | every byte taken from the wrapping word depends on the last two letters only |
| `Base64.DecodeIsReference` | src/core/auth.cpp:105-125 | on every text, malformed ones included, the wrapping accumulator decodes what the direct regrouping of six-bit letters does |
| `Base64.JunkIsIgnored` | src/core/auth.cpp:105-125 | a character outside the alphabet other than `=` changes nothing, wherever it stands |
| `Base64.ReferenceRoundTrip` | src/core/auth.cpp:89-125 | the direct regrouping inverts the encoder |
| `Base64.RoundTrip` | src/core/auth.cpp:89-125 | decoding the encoding of any bytes gives them back |
| `RateLimit.Limiter.CheckRateLimit` | src/core/auth.cpp:189-202 | the answer and the new table; a refusal changes nothing, so it never extends a window |
| `RateLimit.RoomSuffices` | src/core/auth.cpp:189-202 | from any state, acceptances in an interval of the window's length are bounded by the room the state leaves |
| `RateLimit.IntervalBound` | src/core/auth.cpp:189-202 | over every trace with a clock that never runs back, every closed interval of the window's length holds at most 2 * max - 1 accepted attempts of an address, max for a window of 0, none for a negative one |
| `RateLimit.RefusedOnlyWhenFull` | src/core/auth.cpp:189-202 | an attempt is refused only if max attempts of its address were let in during the length of a window before it |
| `RateLimit.BoundIsMet` | src/core/auth.cpp:189-202 | for all limits, whatever window and maximum, some trace attains exactly that bound |
| `RateLimit.AddressesAreIndependent` | src/core/auth.cpp:189-202 | an address gets the answers it would get alone |
| `RateLimit.RefusalsLeaveNoTrace` | src/core/auth.cpp:189-202 | a trace without its refused attempts is accepted entirely |
| `Lines.AddLine` | relay/main.cpp:516-517 | what one raw line contributes: nothing if empty, otherwise itself without one carriage return at its end |
| `Lines.FirstPiece` | relay/main.cpp:516-517 | line by line: up to each newline a line without its last carriage return, if anything is left of it |
| `Lines.PiecesSplit` | relay/main.cpp:516-517 | cutting two texts separately is cutting them together if the first ends a line |
| `Lines.CutIsHarmless` | relay/main.cpp:516-517 | when a cut at any place makes no difference, exactly |
| `LogTail.Tail.constructor` | relay/main.cpp:488-488 | tailing starts at the end of the file |
| `LogTail.Tail.Poll` | relay/main.cpp:506-518 | the lines of what was appended since the last poll, and the new position; a shorter file starts over |
| `LogTail.PiecesKeepText` | relay/main.cpp:516-517 | one poll drops only newlines and carriage returns, in place |
| `LogTail.NothingLostOrRepeated` | relay/main.cpp:506-518 | over every run of polls at any file sizes, the delivered text is the appended text, in order, up to newlines and carriage returns |
| `LogTail.DeliveredExactly` | relay/main.cpp:506-518 | it is the appended text less all newlines and carriage returns, if and only if within each chunk every carriage return but a last one precedes a newline |
| `LogTail.WholeLinesDelivered` | relay/main.cpp:506-518 | if each poll ends at a newline the callbacks are the non-empty lines of the whole suffix |
| `LogTail.TornLine` | relay/main.cpp:506-518 | when polling at one more place makes no difference, exactly |
| `TailReader.SplitBuffer` | src/handlers/config_handler.cpp:96-112 | the index-driven loop yields the non-empty lines of the buffer |
| `TailReader.ReadTail` | src/handlers/config_handler.cpp:73-118 | the answer is at most the last 200 lines of the part that is split, of the whole file if it fits in 100 KB, and ends with the last 200 lines behind any newline of the last 100 KB |
| `TailReader.ShowsLinesAfter` | src/handlers/config_handler.cpp:73-118 | what follows a newline within the last 102400 bytes is shown |
| `TailReader.ShowsExactly` | src/handlers/config_handler.cpp:73-118 | exactly what is shown of every file: the last 200 lines of all of it, or behind the first newline within the last 102400 bytes, or of those bytes if they have none |
| `TailReader.ShowsSuffix` | src/handlers/config_handler.cpp:73-118 | what is shown is a suffix of the file's lines if and only if the file fits, the buffer has a newline, or it starts at a line's start |
| `TailReader.TornBuffer` | src/handlers/config_handler.cpp:73-118 | otherwise it shows part of a line |
| `ConfigFiles.SplitLines` | relay/main.cpp:647-647 | the stream loop yields the lines, each without one carriage return |
| `ConfigFiles.FirstLine` | relay/main.cpp:647-647 | line by line what is read, blank lines included, and what is written |
| `ConfigFiles.SplitJoinThen` | relay/main.cpp:631-647 | rewritten lines are read back, whatever follows them |
| `ConfigFiles.SplitJoin` | relay/main.cpp:631-647 | writing lines with CRLF and splitting gives them back |
| `ConfigFiles.NormaliseTwice` | relay/main.cpp:631-647 | rewriting a rewritten file changes nothing |
| `ConfigFiles.SyncReservedSlot` | relay/main.cpp:822-831 | the new text for add, remove and any other action |
| `ConfigFiles.Unban` | relay/main.cpp:631-636 | the new text, written only if the id was listed |
| `ConfigFiles.SyncAdmin` | relay/main.cpp:638-645 | the new text and the reported result for every action |
| `ConfigFiles.TrimMeaning` | relay/main.cpp:110-113 | trimming cuts the white characters off both ends and no others |
| `ConfigFiles.KeyMeaning` | relay/main.cpp:631-645 | which lines belong to an id, for slots, bans and admins; blank lines and comments belong to none |
| `ConfigFiles.AdminLine` | relay/main.cpp:638-645 | the line written for each level |
| `ConfigFiles.OneLineWithout` | relay/main.cpp:631-645 | a line is dropped exactly if it belongs to the id |
| `ConfigFiles.WithoutMeaning` | relay/main.cpp:631-645 | removal leaves no entry of the id, only lines that were there, and changes nothing exactly if it was absent |
| `ConfigFiles.RemoveDeletes` | relay/main.cpp:631-645 | after removal the file's lines are the others, in order, and the id is not listed |
| `ConfigFiles.AddThenListed` | relay/main.cpp:638-645 | adding appends one entry if absent and nothing otherwise; it is listed afterwards exactly if its line reads back as the id |
| `ConfigFiles.RemoveUndoesAdd` | relay/main.cpp:638-645 | removing an id just added gives the CRLF form of the original if and only if the entry reads back as the id |
| `ConfigFiles.AddTwice` | relay/main.cpp:638-645 | adding twice is adding once if and only if the id was listed or its entry reads back as it |
| `ConfigFiles.ProperSlot` | relay/main.cpp:822-831 | which ids a reserved-slot line reads back: trimmed, not empty, no leading number sign, no newline |
| `ConfigFiles.ProperAdmin` | relay/main.cpp:638-645 | which ids an admin line reads back: those without colon and newline |
| `ConfigFiles.BanKey` | relay/main.cpp:631-636 | a ban line is found under its id if and only if the id has no colon |
| `ConfigFiles.ReportIsFaithful` | relay/main.cpp:638-645 | a report of nothing found is true if and only if the action was add or remove, or the id was absent |
| `ConfigFiles.ReportTellsChange` | relay/main.cpp:638-645 | for add and remove, success is reported exactly if the lines changed, and otherwise whether the id was there or not |
| `SendQueue.RawSender.constructor` | relay/main.cpp:329-329 | the thread starts before the test of its loop |
| `SendQueue.RawSender.AddLine` | relay/main.cpp:328-328 | short lines are dropped, others go to the end of the buffer |
| `SendQueue.RawSender.TakeBatch` | relay/main.cpp:334-334 | the oldest lines, at most the batch size, move from the buffer to the batch in flight |
| `SendQueue.RawSender.StopSending` | relay/main.cpp:330-330 | stopping only clears the flag that the loop tests |
| `SendQueue.RawSender.MoveOn` | relay/main.cpp:329-336 | the next step of the thread from where it stands: test, sleep, flush, and the flush after the loop |
| `SendQueue.RawSender.FinishPost` | relay/main.cpp:335-336 | the batch is done; its lines are counted exactly if the post went through |
| `SendQueue.NothingLostOrDoubled` | relay/main.cpp:321-338 | over every interleaving the accepted lines are the posted batches, the one in flight and the buffer, in order; batches keep to the size; the counter counts the lines of successful posts |
| `SendQueue.Backlog` | relay/main.cpp:329-336 | in every run of the thread, how many lines wait follows from how many came in between the batches |
| `SendQueue.StoppedTakes` | relay/main.cpp:329-336 | a stopped thread takes two more batches if it was asleep or at its flush, one if it was testing or posting |
| `SendQueue.LeavesEnd` | relay/main.cpp:329-336 | what waits after a run is the end of what waited before it and was accepted during it |
| `SendQueue.StopLoses` | relay/main.cpp:329-336 | for every run before and after the stop, exactly which lines are left unsent: the last ones, and how many, from the buffer when stop is seen, the batches still to come, and the lines added before, between and after them |
| `SendQueue.StopLosesNothing` | relay/main.cpp:329-336 | with nothing added after it, stopping loses nothing if and only if the buffer fits in two batches, or in one, according to where the thread stood |
| `SendQueue.RestWasPosted` | relay/main.cpp:329-336 | when the thread is done, all lines ever accepted are the posted batches followed by the lines left |
| `SendQueue.StopFinishes` | relay/main.cpp:329-336 | every step a stopped thread waits for brings it nearer its end |
| `SendQueue.DrainTime` | relay/main.cpp:333-336 | n flushes empty the buffer if and only if it holds at most n batches |
| `SendQueue.LineDedup.MarkAndSend` | relay/main.cpp:314-314 | a line passes if and only if it is long enough and its fingerprint is not remembered; the memory's size afterwards never exceeds the maximum |
| `SendQueue.SamePrint` | relay/main.cpp:314-314 | two lines count as the same exactly if they have the same length and the same first 50 characters, and the written fingerprint says the same |
| `SendQueue.LineDedup.Clean` | relay/main.cpp:316-316 | over the maximum it evicts down to half of it, in any order, otherwise nothing |
| `SendQueue.PassedTwice` | relay/main.cpp:310-318 | a fingerprint that passes twice was evicted in between |
| `SendQueue.StillRemembered` | relay/main.cpp:310-318 | a fingerprint stays remembered until it is evicted |
| `Wounds.Tracker.ProcessWound` | src/core/log_parser.cpp:251-275 | a wound replaces an older one of the same victim |
| `Wounds.Tracker.ProcessDie` | src/core/log_parser.cpp:331-393 | the event of a death with the credited wound, which is then used up |
| `Wounds.Tracker.Cleanup` | src/core/log_parser.cpp:306-318 | exactly the expired wounds go |
| `Wounds.Tracker.GetRecentWounds` | src/core/log_parser.cpp:281-300 | exactly the hits of the wounds within the duplicate window |
| `Wounds.AgreeingStep` | src/core/log_parser.cpp:251-417 | for any limits, stores that agree on wounds not yet expired show the same of every line and still agree after it |
| `Wounds.SameStep` | src/core/log_parser.cpp:281-318 | if the duplicate window is within the expiry they also list the same recent wounds |
| `Wounds.EventsNeverShowCleanup` | src/core/log_parser.cpp:306-417 | for any limits, over every run the kill, suicide and wound events are those of the same lines without any eviction |
| `Wounds.SameOutputs` | src/core/log_parser.cpp:251-417 | so are the lists of recent wounds, if the duplicate window is within the expiry or nothing asks for them |
| `Wounds.CleanupIsInvisible` | src/core/log_parser.cpp:281-318 | eviction is invisible in every run if and only if the duplicate window is at most one longer than the expiry, or empty |
| `Wounds.VisibleCleanup` | src/core/log_parser.cpp:281-318 | for all other limits, a run in which eviction shows |
| `Wounds.CreditIsExplanation` | src/core/log_parser.cpp:331-393 | over every run the credited wound is the victim's last, if no death came since and it has not expired |
| `Wounds.ResolveSays` | src/core/log_parser.cpp:342-389 | a death is a suicide exactly if its line names no attacker; victim and damage are the line's; ids, weapon and killer's name are the wound's or the line's, each by its own rule |
| `Wounds.DeathSays` | src/core/log_parser.cpp:331-393 | over every run a death line emits one event, with these fields from the line and its victim's last unexpired wound |
| `Wounds.WoundSays` | src/core/log_parser.cpp:396-417 | a wound line emits its own hit |
| `Wounds.CreditedOnce` | src/core/log_parser.cpp:331-393 | no wound is credited to two deaths |
| `Ledger.Select` | src/core/shared_utils.h:141-147 | the selected row is the server's own if there is one, else a shared one, else none |
| `Ledger.BooksExactly` | src/plugins/chat_commands.cpp:81-236 | for each operation which requests go through, the amounts it logs, and the one row it changes, by how much in balance and in what counts as earned |
| `Ledger.Database.AddPoints` | src/core/points_service.cpp:10-49 | both tables afterwards |
| `Ledger.Database.DeductPoints` | src/core/points_service.cpp:65-95 | both tables afterwards; a refusal changes nothing |
| `Ledger.Database.AdjustPoints` | src/core/shared_utils.h:150-178 | both tables afterwards; a refusal changes nothing |
| `Ledger.Database.PostAdjust` | src/handlers/points_handler.cpp:78-122 | both tables afterwards, whichever row of the player the query yields; a refusal changes nothing |
| `Ledger.Database.GetBalance` | src/plugins/chat_commands.cpp:81-86 | the balance of the selected row, 0 without one |
| `Ledger.Database.ChargeFee` | src/plugins/chat_commands.cpp:158-166 | the fee is charged exactly if there is one that the balance covers |
| `Ledger.Database.ChatAddBalance` | src/plugins/chat_commands.cpp:88-106 | both tables afterwards |
| `Ledger.Database.DoSignIn` | src/plugins/chat_commands.cpp:108-132 | both tables afterwards |
| `Ledger.Database.DoLottery` | src/plugins/chat_commands.cpp:134-172 | both tables afterwards, over the fee and the draw |
| `Ledger.Database.DoRedeem` | src/plugins/chat_commands.cpp:193-218 | both tables afterwards; a refusal changes nothing |
| `Ledger.Database.DoSwitchTeam` | src/plugins/chat_commands.cpp:220-236 | both tables afterwards; a refusal changes nothing |
| `Ledger.Database.GrantPoints` | src/plugins/cdk_redeem_plugin.cpp:80-95 | both tables afterwards |
| `Ledger.AddBalanceSurplus` | src/plugins/chat_commands.cpp:88-106 | by how much balances and log part when a chat command books: only without a row |
| `Ledger.LotterySurplus` | src/plugins/chat_commands.cpp:134-172 | a fee and a draw go to the same row, so only a lottery without a fee can part balances and log |
| `Ledger.SurplusDrifts` | src/plugins/chat_commands.cpp:88-172 | by exactly how much each operation makes balances outgrow the log, for its own player and for no other |
| `Ledger.ConservesUnlessUnbacked` | src/core/points_service.cpp:10-95 | each operation moves a player's balances and logged amounts alike, if and only if it is not an unbacked operation of that player |
| `Ledger.RunConserves` | src/core/points_service.cpp:10-95 | over every interleaving of backed operations a player's balances over all rows equal the player's logged amounts |
| `Ledger.ListedServersConserve` | src/core/database.cpp:344-354 | on listed servers without negative draws that holds of every interleaving |
| `Ledger.EarnedCoversBalance` | src/core/points_service.cpp:19-34 | each operation keeps lifetimeEarned at least balance on every row, if and only if it is not a deduction of a negative amount beyond the row's slack |
| `Ledger.NoDebtUnlessOverdrawn` | src/core/points_service.cpp:10-49 | each operation leaves every balance at least 0, if and only if it is not a negative award, grant or draw that exceeds the balance it is booked on; deductions, adjustments and paid commands never are |
| `Ledger.GuardedKeepsNoDebt` | src/plugins/chat_commands.cpp:158-166 | no operation does that checks a balance first or only pays in: the row checked is the row charged |
| `Ledger.RunKeepsRowsSound` | src/core/points_service.cpp:10-95 | over every run from empty tables, no balance is ever negative if and only if no operation overdraws, and none ever exceeds what was earned if and only if no negative deduction exceeds the slack |
| `Ledger.GuardedRunsAreSound` | src/core/points_service.cpp:10-95 | so both hold of every run of operations that check first or only pay in |
| `Ledger.PenaltyMakesDebt` | src/core/points_service.cpp:10-49 | a penalty as the first award leaves a balance below 0 |
| `Ledger.UnlistedAwardIsLost` | src/core/database.cpp:344-354 | an award on an unlisted server is logged and not booked |
| `Ledger.NegativeDrawIsLogged` | src/plugins/chat_commands.cpp:88-106 | a negative draw without a fee is logged and not booked |
| `Ledger.NegativeDeductionIsUnearned` | src/core/points_service.cpp:65-95 | deducting a negative amount after an award leaves more than was earned |
| `Cdk.Plugin.Handle` | src/plugins/cdk_redeem_plugin.cpp:39-110 | the answer of every guard in order, and the new codes, usage rows, slots and ledger |
| `Cdk.DecideMeaning` | src/plugins/cdk_redeem_plugin.cpp:39-75 | what each answer means: unknown, past its date, used up, for another server, used before, or redeemed |
| `Cdk.SlotsGiven` | src/plugins/cdk_redeem_plugin.cpp:93-102 | a slot code gives its redeemer the server's slot, and nothing else gives any |
| `Cdk.RedeemersIn` | src/plugins/cdk_redeem_plugin.cpp:39-110 | the usage rows of a code name exactly the players its guard refuses |
| `Cdk.RedeemKeepsSound` | src/plugins/cdk_redeem_plugin.cpp:56-110 | every step keeps counter, usage rows, distinct redeemers and limit in line, and pays what the counter grew by |
| `Cdk.CodeIsCounted` | src/plugins/cdk_redeem_plugin.cpp:56-110 | over every run from a fresh code, whatever else happens: the counter equals usage rows and distinct redeemers, stays within the limit, and the points logged are the counter times the value |
| `Cdk.UsesWereEarned` | src/plugins/cdk_redeem_plugin.cpp:39-110 | over every run each usage row records an attempt of that player with the code, in time, on a server it is good for |
| `Cdk.OnlyRedeemedPays` | src/plugins/cdk_redeem_plugin.cpp:56-110 | balances change only for the redeemer, by the value, on success, and if and only if there is a row or the server is listed; the log changes on every success |
| `TkForgive.Table.HandleKill` | src/plugins/tk_forgive_plugin.cpp:20-37 | a new open record with its deadline, none without a killer |
| `TkForgive.Table.HandleChat` | src/plugins/tk_forgive_plugin.cpp:76-87 | exactly the killer's open records on the server whose deadline is ahead become forgiven |
| `TkForgive.Table.QueryOverdue` | src/tasks/tasks.cpp:156-172 | exactly the open records past their deadline |
| `TkForgive.Table.SetKicked` | src/tasks/tasks.cpp:156-172 | exactly one record becomes kicked |
| `TkForgive.QueriesMean` | src/plugins/tk_forgive_plugin.cpp:76-81 | which records an apology finds, by server, killer, state and deadline, and which the checker finds |
| `TkForgive.ApologyForgives` | src/plugins/tk_forgive_plugin.cpp:76-87 | an uninterrupted apology forgives exactly those |
| `TkForgive.StepKeepsInv` | src/tasks/tasks.cpp:156-172 | every step keeps all records the checker holds expired and unforgiven, except, exactly, a late write of an apology |
| `TkForgive.TimelyIsSafe` | src/plugins/tk_forgive_plugin.cpp:76-87 | an apology written before its record's deadline is safe |
| `TkForgive.ForgivenOrKicked` | src/tasks/tasks.cpp:156-172 | over every run with a clock that never runs back and no such late write, no record is both forgiven and kicked |
| `TkForgive.ForgivenForAReason` | src/plugins/tk_forgive_plugin.cpp:76-87 | over every run a record is forgiven only if its killer apologised in time on its server, and kicked only if the checker found it after its deadline |
| `TkForgive.UnsafeBreaks` | src/plugins/tk_forgive_plugin.cpp:76-87 | after any such late write, letting the checker finish leaves a record that is both |
| `TkForgive.LateApology` | src/plugins/tk_forgive_plugin.cpp:76-87 | a run that gets there |
| `TkForgive.UninterruptedIsWhole` | src/plugins/tk_forgive_plugin.cpp:76-87 | read and writes without interruption are forgiveness in one step |
| `TkForgive.PassDecides` | src/tasks/tasks.cpp:156-172 | after an uninterrupted pass every expired record is either forgiven or kicked |
| `PathIds.TextMeansNumber` | src/handlers/team_handler.cpp:142-145 | comparing an id as text and as a number agree exactly on spellings without leading zeros |
| `PathIds.Padded` | src/handlers/team_handler.cpp:135-145 | every id has another spelling with the same number |
| `Teams.Database.PostTeam` | src/handlers/team_handler.cpp:26-37 | accepted exactly if the name fits and the caller has no team; then a new team owned and joined by the caller |
| `Teams.Database.PostInvite` | src/handlers/team_handler.cpp:64-74 | accepted exactly from an owner; then one more unused invite |
| `Teams.Database.PostJoin` | src/handlers/team_handler.cpp:76-87 | accepted exactly with a usable invite and no team; then the invite is used up by the caller, who joins its team |
| `Teams.Database.PostJoinRequest` | src/handlers/team_handler.cpp:89-97 | accepted exactly without a team and for an existing one; then one pending request |
| `Teams.Database.PostApprove` | src/handlers/team_handler.cpp:106-122 | a pending request of the owner's team is approved and the user joins, or is rejected if the user has a team |
| `Teams.Database.PostReject` | src/handlers/team_handler.cpp:124-132 | a request of the owner's team is rejected |
| `Teams.Database.MayRemove` | src/handlers/team_handler.cpp:134-144 | who gets past the guards of removal, with the ids compared as text |
| `Teams.Database.DeleteMember` | src/handlers/team_handler.cpp:134-146 | owners remove others, others leave, and only members of that team are touched |
| `Teams.Database.DeleteInvite` | src/handlers/team_handler.cpp:148-156 | an invite of the owner's team is deleted |
| `Teams.StepKeepsBooks` | src/handlers/team_handler.cpp:76-87 | every route keeps ids fresh and each invite used at most once, by whom it says |
| `Teams.StepKeepsOwners` | src/handlers/team_handler.cpp:26-146 | every route keeps each owner in its team, if and only if it is not an owner removing itself under leading zeros |
| `Teams.OwnersBelongUnlessSlip` | src/handlers/team_handler.cpp:26-156 | over a whole run, the owners stay members all along if and only if that never happens |
| `Teams.TeamsAreOwned` | src/handlers/team_handler.cpp:26-156 | with plain ids, over every run each owner is a member of its team, nobody owns two, and each invite is consumed at most once |
| `Teams.MembersChange` | src/handlers/team_handler.cpp:26-146 | everybody's membership after every route: into the team made, the invite's or the approving owner's, and out by the owner or by leaving |
| `Teams.PapersAreTheirs` | src/handlers/team_handler.cpp:64-97 | invites appear only by the hand of the team's owner and requests only by the user's own |
| `Teams.PapersResolve` | src/handlers/team_handler.cpp:76-156 | who resolves a request, and how, and what becomes of an invite |
| `Teams.MembersWereLetIn` | src/handlers/team_handler.cpp:26-146 | over every run whoever is in a team made it, used an invite of it, or was approved by its owner |
| `Teams.CreatorNeedsARow` | src/handlers/team_handler.cpp:26-37 | a new team's owner belongs to it if and only if the caller has a row |
| `Teams.OwnerSlipsOut` | src/handlers/team_handler.cpp:134-146 | two requests after which a team's owner is not a member of it |
| `Servers.Database.GetServerRole` | src/core/shared_utils.h:112-117 | the role of a member, none for others |
| `Servers.Database.PostServer` | src/handlers/server_handler.cpp:53-89 | a new server with the caller as owner |
| `Servers.Database.PostMember` | src/handlers/server_handler.cpp:199-224 | accepted exactly from an owner, or from an admin adding a plain member, for an active user who is not one yet |
| `Servers.Database.PutMember` | src/handlers/server_handler.cpp:227-246 | accepted exactly from an owner for another member, by text |
| `Servers.Database.DeleteMember` | src/handlers/server_handler.cpp:249-268 | who may remove whom, and the members afterwards |
| `Servers.Database.Delete` | src/handlers/server_handler.cpp:135-156 | owners delete a server with its members |
| `Servers.OwnerStays` | src/handlers/server_handler.cpp:199-268 | ownership ends only with the server, by another owner who stays one, or by an owner spelling its id with leading zeros |
| `Servers.StepKeepsOwners` | src/handlers/server_handler.cpp:53-268 | every route keeps an owner on every server, if and only if it is not such a step of the only owner |
| `Servers.OwnedUnlessOrphaned` | src/handlers/server_handler.cpp:53-268 | over a whole run, every server has an owner all along if and only if that never happens |
| `Servers.ServersAreOwned` | src/handlers/server_handler.cpp:53-268 | with plain ids, over every run each existing server has an owner |
| `Servers.RolesChange` | src/handlers/server_handler.cpp:53-268 | everybody's role after every route: who can give which role, and who can take it |
| `Servers.ServersChange` | src/handlers/server_handler.cpp:53-156 | a server appears with its creation and goes by an owner's deletion |
| `Servers.RolesWereGiven` | src/handlers/server_handler.cpp:53-268 | over every run whoever has a role was given it by someone who could |
| `Servers.OwnerSlipsOut` | src/handlers/server_handler.cpp:227-268 | two requests after which a server has no owner, by leaving and by stepping down |

## Left out

- Sockets, HTTP, WebSocket transport, threads and sleeping: steps, byte sequences and arrival counts stand for them; each route, command and plugin call is one step, except the kicker's pass and the forgiveness command, which are split into their query and their writes.
- SQL text and SQLite: tables are sequences, sets or maps with the stated selection order; the foreign key of the points table is modelled, other constraints only where named.
- The tables of the team routes (teams, invite codes, join requests, the team column of users) are created nowhere in the repository; the model takes ids as unique and one request per team and user, as the routes' own statements presuppose. Nothing in the repository registers these routes either.
- `deductPoints` of the points service has no caller in the C++ source; it is modelled as the operation it offers.
- Regular expressions, JSON, scrypt, HMAC and GBK conversion: parsed fields are taken as given. So are the filter for garbled names and the weapon name of the log parser.
- Floating point: scores are real numbers; that better figures never score lower needs deaths to be counts, 0 or at least 1.
- Integer width: 32-bit words are modelled in the RCON frames and in Base64; elsewhere ids, balances and times are unbounded.
- RconClient.Client.Execute: requires three packet ids left before 2^31, because the signed counter of the client overflows there and nothing is defined beyond.
- RconClient.Client.SendPacket: a send that fails puts nothing on the stream, where part of the frame may have gone out; the connection is given up either way, and a cut frame yields no packet.
- RconProtocol.RunReturnsOwnReplies: the server is in order: a command's packets come before the echo of its terminator and carry ids handed out so far; a server that answers out of order is outside the property.
- RconWire.Pack: bodies whose frame size would not fit a signed 32-bit integer are excluded, as for the panel's encoder, where the size arithmetic overflows.
- The relay's own RCON receiver, which reads 12 header bytes and then the whole size, and so does not fit its own frames.
- Scramble.SortByScore: stands for `std::sort`; only that the result is a descending permutation is used, so nothing depends on the order of equal scores.
- PlayerSync.ApplyDiff: the in-memory map only; the debounce, the page's elements, the full refresh, and the order of the resulting list are left out. Diff messages are those of the server being watched, as they carry no server id.
- LogTail.Tail.Poll: one log file; switching to a newer file is left out, a truncated one is kept.
- The local log tailer of the panel, whose position depends on stream failure states.
- SendQueue.LineDedup.MarkAndSend: a fingerprint is the pair of the line's first 50 characters and its length, which its printed form determines; the order in which entries are evicted is any.
- Ledger.Database.DoRedeem: of the reserved-slot table only whether the player has a slot.
- Admin overrides of team-kill records, remote overwrites of points, log pruning, the deletion of users, and the deletion of a server's rows in tables other than its members.
- Thin create-read-update-delete routes, paging, CORS, configuration getters, the rest of the front end.
