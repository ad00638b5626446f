# Verified models of UZE

Dafny models of the parts of UZE whose correctness rests on an argument about every run or every input: the
read of `git status` that the extension host shares between threads, the terminal interpreter of the
conformance lab and its transcript twin, WebSocket framing, the self-updater, and the smaller loops behind
themes, degraded streams, chunked bodies, agent identities and journals. `dafny verify dfyconfig.toml` verifies
the whole project.

| module | models |
|---|---|
| `SharedStatus` | the shared `status` read as interleaved steps of any number of threads: map lock, one lock and condition variable per read, reuse window, unwind guard, forgetting by path |
| `StatusFreshness` | what a shared `status` shows of the files this host writes: the same protocol with every edit in it, and the moment each read looks |
| `StatusTable` | the same map and reads as the objects that are updated in place, each critical section tied to the protocol's steps |
| `LineCounts` | counting lines off a buffered read, and the bounded cache of counts |
| `EscapeTokens` | the escape grammar both scanners share, and `ansi_strip` |
| `Transcripts` | what `ansi_strip` takes out, family by family |
| `Screens` | `render_screen`: a grid machine over tokens, and the in-place interpreter |
| `ControlFunctions` | what each control function and character does to the grid, cell by cell |
| `Screenfuls` | what the interpreter is for, said without its machine: written lines are shown, a character lands where it is sent, what is erased is not shown |
| `Settling` | `settle_and_quiet` over a clock that never steps back |
| `WebSockets`, `Octets` | `_read_exact`, `read_message` and `send_frame` over a socket that splits bytes anyhow |
| `Versions` | `Precedence`, `Identifier`, `precedence` and `newer` against section 11 of Semantic Versioning 2.0.0 |
| `VersionTexts` | which texts are read as a version, and as which |
| `Updater` | receipt, ledger and files under passes, upgrades, finishing commands and acknowledgements |
| `Passes` | passes and upgrades in flight beside one another, step by step, each with the copy of the ledger it began with |
| `Notices` | the notice and its revision, published and polled |
| `Replacing` | `replace`, with every state the file system passes through |
| `Themes` | the walk up `extends` and the layers it names |
| `Variations` | degraded streams: the specification, the frames, the chunks |
| `Degradations` | what each kind of step does to the bytes |
| `Chunked` | the decoder of chunked bodies |
| `ShimIdentity` | the shim's launch, and who owns an agent's identity in a forest of processes |
| `Journal` | keeping a journal within its budget |
| `Sequences`, `Strings`, `Outcomes` | bytes and pieces, `split`, `strip` and the order of texts, and the two result shapes |

Methods do what the code does, in place where it works in place, and are proved against functions that say what
the result is; the lemmas are about those functions, or about every sequence of steps.

## Where the code and what is said of it differ

The models follow the code. Each of these is proved, with an input that shows it and, where there is one, the
exact condition under which the code does what is said.

- `write_file` and `delete_file` forget before they touch the file (src/ui/extension_host.rs:152-153, 163-164), so
  the next `status` need not see the change (src/ui/extension_host.rs:289-290):
  `StatusFreshness.TheNextStatusMayMissTheEdit` is a run in which it does not, and
  `StatusFreshness.ALookupAfterAnEditShowsItExactlyWhen` says exactly when it does.
- The clock is read before the lock is taken for the answer (src/ui/extension_host.rs:222-225), so a read that waits for
  that lock may be too old to share as soon as it is settled (`SharedStatus.ASettledReadMayBeOldAtOnce`).
- A count is remembered whatever came of the read, so a file that could not be read counts nothing for as long
  as its stamp stays (`LineCounts.AFailedReadIsRemembered`).
- `render_screen` raises where a parameter is a digit string that `int` refuses, such as a superscript
  (`Screens.ASuperscriptRaises`, `Screens.RaisesExactlyOnUnreadable`).
- A final pong nobody asked for ends `read_message` with what had arrived (`WebSockets.AnUnaskedPongCutsTheMessage`);
  `WebSockets.MessagesAreReadWhole` says exactly which frames between a message's own leave it whole.
- Acknowledgements are stored by threads of their own; one for an older release that lands last has the newer
  one announced again (`Updater.ALateAcknowledgementRevives`, `Updater.AnnouncedUnlessLastAcknowledged`).
- A pass in flight when a release is acknowledged may announce it all the same (`Passes.APassInFlightMayStillSayIt`).
- A question that goes unanswered stores the latest release its pass's copy knows of, and so unlearns one that was
  learnt since: to none (`Passes.ACopyOfNoneUnlearnsIt`) or to an earlier one (`Passes.AnOlderCopyPutsItBack`),
  exactly as `Passes.TheLatestMovesExactlyWhen` says.
- Of two passes in flight at once, one may place an earlier release over what the other has just placed
  (`Passes.AnEarlierReleaseIsPlacedOver`); `Passes.APlacementAdvancesExactlyWhen` says when a placement is an advance.
- A client may have seen the counter and not the notice while a publisher is between its write and its count
  (`Notices.AnOwedCountHidesTheNotice`, `Notices.SeenIsCurrent`).
- A target that itself bears the temporary name is emptied and written over in place, and the temporary file stays
  behind when its removal fails as well, exactly as `Replacing.Replace` says.
- A frame that ends in a newline is cut elsewhere when its stream is split again, unless it is that newline alone
  (`Variations.ResplitIsTheSame`); `disconnect_after` with a negative count serves nothing and with a repeated
  frame one part more (`Variations.DisconnectingCutsShort`); a negative `slow_sse` raises at the first pause
  (`Variations.ANegativePauseRaises`, and exactly as `Variations.ChunkStream` says); a broken frame loses its `event:` line, which the
  comment says it keeps, and one without `data:` loses everything (`Variations.ABrokenFrameKeepsItsData`,
  `Variations.ABrokenFrameWithoutDataKeepsNothing`).
- A chunk size below -1 or past 2^63 - 1 is a read the buffered reader refuses, and the decoder lets that
  out rather than stopping (`Chunked.RaisesExactlyWhenAsked`); a size of -1 takes everything there is for data
  (`Chunked.AMinusOneTakesAll`). A trailer field is taken for the closing line and what follows it is left on the
  stream (`Chunked.TheLastChunkEnds`).
- An enclosing agent's identity is owned by a process that runs a shim a second time, and by a child spawned
  before the enclosing process ran its own (`ShimIdentity.AReExecOwnsTheEnclosingIdentity`,
  `ShimIdentity.AnEarlierChildOwnsItToo`); `ShimIdentity.OwnsExactlyWhen` says exactly who owns one.
- A journal called `ui` would prune the files of one called `ui.preview` (`Journal.AnotherJournalIsTaken`,
  `Journal.WhoseFilesAreTaken`). The two the program opens, `uze` and `terminal` (src/main.rs:849-850), leave each
  other's alone (`Journal.TheJournalsThereAreStayApart`).

## Model

| member | source | states |
|---|---|---|
| SharedStatus.StepKeepsInv | src/ui/extension_host.rs:203-293 | every step of every thread keeps the protocol's invariant: held locks have their holders, an unsettled read its runner, an unannounced answer its announcer, registered reads are newer than every forget that reaches them |
| SharedStatus.RunKeepsInv | src/ui/extension_host.rs:203-293 | every interleaving of any length keeps it |
| SharedStatus.ReachedKeepsInv | src/ui/extension_host.rs:203-293 | it holds in every state reached from the start, for any number of threads |
| SharedStatus.OnlyTheRunnerSettles | src/ui/extension_host.rs:222-225 | an answer is stored only by the thread that registered the read, over none, and never changes afterwards |
| SharedStatus.SettledOnce | src/ui/extension_host.rs:259-276 | over any run a read is settled exactly once if it has an answer at the end and not at all otherwise, unwinding included |
| SharedStatus.SharedExactlyWhileFresh | src/ui/extension_host.rs:215-225 | from the moment the runner, its run over, reads the clock, over every interleaving: whoever finds the read settled shares it exactly if less than 500 ms have passed since that moment, and whoever finds it unsettled shares it |
| SharedStatus.ASettledReadAges | src/ui/extension_host.rs:215-219 | so over every run a lookup shares no read that was settled 500 ms ago or longer |
| SharedStatus.AnUnstampedReadIsFresh | src/ui/extension_host.rs:222-225 | and shares every read whose runner had yet to read the clock less than 500 ms ago |
| SharedStatus.AStampThatWaitedIsOld | src/ui/extension_host.rs:222-225 | a read whose runner read the clock 500 ms ago and then waited for the lock is not shared, however lately it was settled |
| SharedStatus.ASettledReadMayBeOldAtOnce | src/ui/extension_host.rs:222-225 | a run in which a read is settled and, asked for at once, not shared |
| SharedStatus.RunByItsRegistrant | src/ui/extension_host.rs:248-276 | whoever is inside `run`, or settling it, registered that read, and nobody else is |
| SharedStatus.OneReadInFlight | src/ui/extension_host.rs:239-258 | of two reads of one key the older can still be unfinished only if a forget of that checkout came between their registrations |
| SharedStatus.NobodyIsHandedAStaleRead | src/ui/extension_host.rs:237-287 | once a read has been settled for 500 ms, in no run is anybody handed it who had not been handed it before |
| SharedStatus.AnswersAreWhatTheRunCameTo | src/ui/extension_host.rs:259-287 | from the end of a `run` on, its read holds what it came to and nothing else, and whoever leaves with the read leaves with that; with word that it did not finish if it unwound |
| SharedStatus.NoAnswerFromBeforeAForget | src/ui/extension_host.rs:291-292 | in every run after a forget, no thread that had yet to look up leaves with a read of a root around that path registered before the forget |
| SharedStatus.OtherCheckoutsAreKept | src/ui/extension_host.rs:291-292 | a forget takes the reads whose root the path is in off the map, and no others |
| SharedStatus.SomebodyMoves | src/ui/extension_host.rs:239-293 | no lock cycle and no lost wake-up: whenever anybody is inside a request, somebody inside one can take a step |
| SharedStatus.StepPays | src/ui/extension_host.rs:239-293 | every step inside a request lowers a bound that only new requests and spurious wake-ups raise |
| SharedStatus.ProgressIsBounded | src/ui/extension_host.rs:239-293 | so the steps of any run are bounded by what was asked |
| SharedStatus.EveryAskerIsAnswered | src/ui/extension_host.rs:237-287 | when no step inside a request is left, every asker has been answered; a schedule takes at most 14 of them for each `status`, 2 for each forget and 2 for each spurious wake-up |
| StatusFreshness.ActKeeps | src/ui/extension_host.rs:148-165 | every step, every edit and every look of a read keeps what relates them: a read looks after each forget it was registered after, a lookup finds a read registered after the forget of every edit it comes after |
| StatusFreshness.RunsKeep | src/ui/extension_host.rs:148-165 | so does every run, whichever threads write and ask |
| StatusFreshness.ALookupAfterAnEditShowsItExactlyWhen | src/ui/extension_host.rs:289-293 | whoever looks up after an edit and leaves with a read of a root around it is told that the read did not finish, or shown the edit exactly if the read did not look between that edit and the forget before it; no look comes from before the forget, a read registered after the edit shows it, and one that misses it was registered in between |
| StatusFreshness.TheNextStatusMayMissTheEdit | src/ui/extension_host.rs:152-153 | a run in which a read registered between the forget and the write answers the next `status` without the edit |
| StatusTable.Table.constructor | src/ui/extension_host.rs:230-231 | the empty map represents the protocol's first state |
| StatusTable.Table.LookUpOrRegister | src/ui/extension_host.rs:248-258 | the critical section joins the usable registered object or installs a fresh one, and that is a legal run of the protocol's steps to the state it leaves |
| StatusTable.Table.Settle | src/ui/extension_host.rs:222-223 | storing the answer in the object is the protocol's store |
| StatusTable.Table.ForgetAround | src/ui/extension_host.rs:291-293 | dropping the entries whose root holds the path is the protocol's forget; the objects themselves stay |
| StatusTable.SectionRuns | src/ui/extension_host.rs:248-258 | what a lookup's steps leave of the map, the reads and the thread |
| LineCounts.LinesCutAtNewlines | src/ui/extension_host.rs:346-348 | the lines of a text are the whole text, cut behind each newline and nowhere else |
| LineCounts.LinesAreNewlines | src/ui/extension_host.rs:346-353 | they are as many as its newlines, and one more when it does not end in one |
| LineCounts.Reader.Read | src/ui/extension_host.rs:330-336 | a read hands over some of what is left, of any size the buffer takes, and nothing only at the end |
| LineCounts.CountLinesOf | src/ui/extension_host.rs:325-354 | whatever the content and however it is split, the number of lines capped at the u32 maximum; 0 when it cannot be opened or read |
| LineCounts.LineCounts.CountLines | src/ui/extension_host.rs:175-189 | the answer and the cache after one call |
| LineCounts.CallKeepsFaithful | src/ui/extension_host.rs:172-189 | if a stamp decides what a reading finds, one call answers what an uncached count would and keeps the cache faithful and within bounds |
| LineCounts.CachedIsUncached | src/ui/extension_host.rs:172-189 | after any sequence of calls every further answer is the uncached one, out of at most 4096 entries |
| LineCounts.OtherCountsAreKept | src/ui/extension_host.rs:302-320 | a new count leaves every other as it was below 4096 entries, and drops all of them at 4096 |
| LineCounts.AFailedReadIsRemembered | src/ui/extension_host.rs:184-188 | a stamp that does not decide it: a count of an unreadable file is kept when the file is readable again |
| EscapeTokens.NextIsPrefix | conformance/shared/common.py:1007-1037 | the token at the front of a text is a well-formed prefix of it, cut off only if it is all of it |
| EscapeTokens.NextOfRaw | conformance/shared/common.py:1007-1037 | a token is what is found at the front of its own text, whatever follows it |
| EscapeTokens.TokensAreTheText | conformance/shared/common.py:992-1038 | every text is the concatenation of its tokens |
| EscapeTokens.TokensAreUnique | conformance/shared/common.py:992-1038 | and of no other well-formed sequence of tokens |
| EscapeTokens.TokensResume | conformance/shared/common.py:1003-1037 | scanning goes on from any token boundary |
| EscapeTokens.AnsiStrip | conformance/shared/common.py:992-1038 | the index loop ends on every text and returns the characters of its tokens that belong to no escape |
| EscapeTokens.FindFinal | conformance/shared/common.py:1080-1086 | the inner loop over a CSI finds its parameters and final byte, or that it is cut off |
| EscapeTokens.SkipString | conformance/shared/common.py:1018-1029 | the inner loop over a control string stops where the token ends |
| EscapeTokens.StripDropsEscapes | conformance/shared/common.py:992-994 | no ESC is left |
| EscapeTokens.StripOnlyDrops | conformance/shared/common.py:992-994 | what is left is a subsequence of the text |
| EscapeTokens.PlainTextIsKept | conformance/shared/common.py:1035-1037 | a text without an ESC is left alone |
| EscapeTokens.StripIsIdempotent | conformance/shared/common.py:992-1038 | stripping twice strips no more, and leaves a text alone exactly when it holds no ESC |
| EscapeTokens.StripsPiecewise | conformance/shared/common.py:992-1038 | stripping two parts is stripping the whole, whatever the second is, exactly when the first ends on a token boundary |
| Transcripts.CharactersAreKept | conformance/shared/common.py:1035-1037 | a character that is no ESC is kept |
| Transcripts.ControlSequencesGo | conformance/shared/common.py:1012-1017 | a control sequence goes up to and with its first character from 0x40 to 0x7e, and everything goes without one |
| Transcripts.ControlStringsGo | conformance/shared/common.py:1018-1029 | DCS, PM, APC, SOS and OSC go up to and with the first BEL or ESC and backslash, and everything goes without either |
| Transcripts.CharacterSetsGo | conformance/shared/common.py:1030-1032 | a character set selection goes with the character behind it, if there is one |
| Transcripts.OtherEscapesGo | conformance/shared/common.py:1033-1034 | any other escape goes with one character behind it, and one at the end of the text by itself |
| Screens.Controlled | conformance/shared/common.py:1089-1127 | every control function keeps the live grid and any saved one exactly rows by columns and the cursors in range |
| Screens.Typed | conformance/shared/common.py:1150-1167 | so does every character, which never touches the saved screen |
| Screens.Play | conformance/shared/common.py:1067-1169 | and so does any sequence of tokens |
| Screens.Terminal.EraseLine | conformance/shared/common.py:1100-1106 | the slices clear what EL clears, which `ControlFunctions.EraseInLine` says cell by cell |
| Screens.Terminal.EraseDisplay | conformance/shared/common.py:1107-1113 | the slices and the loop clear what ED clears, which `ControlFunctions.EraseInDisplay` says cell by cell |
| Screens.Terminal.EraseCharacters | conformance/shared/common.py:1114-1116 | the slice clears what ECH clears, which `ControlFunctions.EraseCharacters` says cell by cell |
| Screens.Terminal.Move | conformance/shared/common.py:1089-1099 | the cursor functions, clamped, in one-based coordinates where zero and nothing mean one |
| Screens.Terminal.Control | conformance/shared/common.py:1085-1127 | one CSI in place is one step of the machine; a refused parameter raises and changes nothing |
| Screens.Terminal.Put | conformance/shared/common.py:1150-1167 | one character in place is one step of the machine |
| Screens.RenderScreen | conformance/shared/common.py:1054-1169 | rendering is a fold over the tokens that `ansi_strip` finds, it ends on every text, and the characters that reach the grid are what `ansi_strip` returns, in order |
| Screens.PlayAppend | conformance/shared/common.py:1077-1168 | playing two runs of tokens is playing one after the other |
| Screens.RenderingResumes | conformance/shared/common.py:1077-1168 | a stream cut on a token boundary is rendered by going on from the state after the first part |
| Screens.RaisesExactlyOnUnreadable | conformance/shared/common.py:1087 | a text raises exactly if some terminated CSI in it holds a digit string that `int` refuses |
| Screens.ASuperscriptRaises | conformance/shared/common.py:1087 | such as a superscript two, if `int` refuses it |
| Screens.MotionShowsNothing | conformance/shared/common.py:1089-1099 | moves of the cursor and unknown functions leave every cell as it was |
| Screens.EscapesPlaceNothing | conformance/shared/common.py:1130-1149 | without CSIs, what is shown is what the stripped text shows |
| Screens.InsideTheAlternate | conformance/shared/common.py:1117-1126 | nothing but leaving the alternate screen touches the saved primary one, nested entries included |
| Screens.AlternateLeavesPrimaryOver | conformance/shared/common.py:1117-1126 | over any tokens between entering and leaving, the whole state comes back |
| Screens.AlternateLeavesPrimary | conformance/shared/common.py:1117-1126 | over any text between the two sequences, grid and cursor come back as they were |
| ControlFunctions.ParametersAreRead | conformance/shared/common.py:1087 | parameters are the pieces between semicolons, each its number, or zero where it is no digit string; one that `int` refuses raises |
| ControlFunctions.EraseInLine | conformance/shared/common.py:1100-1106 | EL 0 clears from the cursor to the end of its row, EL 1 from the start of the row to the cursor, any other the whole row; every other cell and the cursor stay |
| ControlFunctions.EraseInDisplay | conformance/shared/common.py:1107-1113 | ED 0 clears from the cursor to the end of the grid, ED 2 all of it, any other nothing |
| ControlFunctions.EraseCharacters | conformance/shared/common.py:1114-1116 | ECH n clears n cells from the cursor on, at least one and none past the row |
| ControlFunctions.CursorMoves | conformance/shared/common.py:1089-1096 | the four moves go by their count, a zero counting one, as far as the edge |
| ControlFunctions.CursorIsAddressed | conformance/shared/common.py:1097-1099 | CUP and HVP alike: home without parameters, the first column without a second one, otherwise one-based and kept on the grid |
| ControlFunctions.TheAlternateIsBlank | conformance/shared/common.py:1117-1126 | the alternate screen is blank when entered, with the cursor where it was; entered again, or left unentered, nothing happens |
| ControlFunctions.OtherFunctionsDoNothing | conformance/shared/common.py:1085-1129 | every other control function leaves the screen as it is |
| ControlFunctions.ControlCharacters | conformance/shared/common.py:1150-1161 | CR, BS and HT to the next multiple of eight; other control characters do nothing |
| ControlFunctions.LineFeed | conformance/shared/common.py:1152-1157 | one row down in the same column; at the bottom every row moves up and a blank one comes in |
| Screenfuls.LinesAreShown | conformance/shared/common.py:1054-1066 | lines that fit the width, written out under one another, are shown as they are: all of them, or the last as many as there are rows, having scrolled |
| Screenfuls.LineIsTyped | conformance/shared/common.py:1162-1167 | printed characters stand from the cursor on and nothing else changes |
| Screenfuls.ACharacterLandsWhereItIsSent | conformance/shared/common.py:1097-1099 | a character printed after a cursor address lands in that cell, counted from one, and in no other |
| Screenfuls.MovesAreUndone | conformance/shared/common.py:1089-1096 | with room for it a move goes its way by its count, and the opposite move brings the whole state back |
| Screenfuls.AnErasedTailIsNotShown | conformance/shared/common.py:1095-1102 | a line gone back over by n characters and erased from there is shown without them and without the spaces that then end it |
| Screenfuls.ThreeTakenBack | conformance/shared/common.py:1095-1102 | such as five characters, three of them taken back |
| Settling.SettleAndQuiet | conformance/shared/common.py:134-195 | settled at the first round that finds the screen unchanged for the quiet time, if it begins within the budget; not settled once the budget is spent and no round found it; raising where rendering does. It ends because some reading finds the budget spent |
| Settling.OneEnd | conformance/shared/common.py:134-140 | the clock and the reads leave one answer only |
| Settling.NothingChangedSince | conformance/shared/common.py:134-140 | from the last change on, every read left what is shown as it was |
| Settling.SettledMeansStill | conformance/shared/common.py:134-140 | a screen called settled showed one thing over two readings of the clock at least the quiet time apart, the first of them behind the last read to change it, with every read since between them |
| Settling.MotionIsNoChange | conformance/shared/common.py:142-150 | cursor motion over unchanged text is no change, however much of it is read |
| WebSockets.BigEndianRoundTrip | conformance/shared/websocket.py:45-48 | reading a length inverts writing it, in any width that holds it |
| WebSockets.Conn.Recv | conformance/shared/websocket.py:21-23 | a receive hands over some of what is to come, and nothing only at the end |
| WebSockets.ReadExact | conformance/shared/websocket.py:17-26 | the next n octets or all that were left, however the socket splits them |
| WebSockets.SendFrame | conformance/shared/websocket.py:66-76 | one unmasked final frame in the length encoding of section 5.2 of RFC 6455 |
| WebSockets.ReadLength | conformance/shared/websocket.py:44-48 | the announced length, off the stream |
| WebSockets.ReadBody | conformance/shared/websocket.py:49-52 | the unmasked payload, off the stream; `WebSockets.AFrameOffItsOctets` says what unmasking does |
| WebSockets.ReadFrame | conformance/shared/websocket.py:38-52 | one frame off the stream and no octet more |
| WebSockets.ReadMessage | conformance/shared/websocket.py:29-63 | the message returned, the pongs sent and the stream left are functions of the octets alone, not of how they arrive; it ends on every finite stream |
| WebSockets.MaskingTwice | conformance/shared/websocket.py:51-52 | unmasking inverts masking |
| WebSockets.GetOfEncode | conformance/shared/websocket.py:38-52 | taking a frame off the wire inverts putting it there, masked or not, in all three length encodings |
| WebSockets.AFrameOffItsOctets | conformance/shared/websocket.py:41-52 | said of the octets alone: octet i of the payload is the octet that travelled, under octet i mod 4 of the mask if there is one; the final bit, the opcode and the length in its 7, 16 or 64 bits are where section 5.2 of RFC 6455 has them, and what follows is left |
| WebSockets.TwoLettersAreUnmasked | conformance/shared/websocket.py:51-52 | such as two letters under the mask 1, 2, 3, 4 |
| WebSockets.TheFirstOctetWeighsMost | conformance/shared/websocket.py:45-48 | lengths of several octets are big-endian |
| WebSockets.ServerOctets | conformance/shared/websocket.py:66-76 | what is sent, octet by octet: the final bit and opcode, the shortest length, no mask, the payload as it is |
| WebSockets.ReadsToTheFirstEnd | conformance/shared/websocket.py:37-63 | any frames are read up to the first that ends a read, with the data payloads in order, one pong for each ping in order, and the stream left just past it |
| WebSockets.WhatIsReadOfAMessage | conformance/shared/websocket.py:37-63 | of any message, whole or not, what had arrived by the first frame that ends a read is returned, and the rest is left on the stream |
| WebSockets.MessagesAreReadWhole | conformance/shared/websocket.py:29-63 | a message in any fragments, masks and interleaved frames (sections 5.3 to 5.5 of RFC 6455) is read whole, with a pong for each ping and the stream left just past it, exactly if no final frame but a ping comes before its last data frame |
| WebSockets.FragmentsAreJoined | conformance/shared/websocket.py:57-63 | a message of any number of fragments comes back as their payloads one after the other, under the opcode of the first |
| WebSockets.ReadInvertsSend | conformance/shared/websocket.py:29-76 | `read_message` inverts `send_frame` for every payload |
| WebSockets.AnUnaskedPongCutsTheMessage | conformance/shared/websocket.py:56-63 | a final pong between two fragments is such a frame: the first fragment is returned as the message and the second left on the stream |
| Versions.OrderIsSection11 | src/self_update.rs:690-723 | the ordering is that of section 11 of Semantic Versioning 2.0.0 as its rules are written, equal only between equals |
| Versions.OrderIsTransitive | src/self_update.rs:703-717 | and transitive |
| Versions.TextIsSection11 | src/self_update.rs:694 | text identifiers compare by their first difference, a prefix first |
| Versions.FieldsAreSection11 | src/self_update.rs:705-715 | lists of identifiers compare by their first difference, a prefix first, in the same way from either side |
| Versions.NewerIsStrict | src/self_update.rs:680-688 | `newer` is irreflexive, asymmetric and transitive on strings, and holds exactly when both parse and section 11 puts the second first |
| Versions.ParseInvertsPrint | src/self_update.rs:725-748 | parsing inverts printing for every well-formed version, whatever space, leading `v`s and build metadata stand around it |
| VersionTexts.ReleasesThatAreRead | src/self_update.rs:725-733 | of the texts of pieces between dots, those of three numbers below 2^64 are read, as those numbers, and no others |
| VersionTexts.PrereleasesThatAreRead | src/self_update.rs:734-745 | behind a release and a hyphen, fields between dots are read if none is empty, each as a number if it is one below 2^64 and as text otherwise; a lone hyphen is a release |
| VersionTexts.TheFirstDigitWeighsMost | src/self_update.rs:729 | numbers are read from their decimal digits |
| Passes.AloneAPassIsOneStep | src/self_update.rs:294-352 | with nobody between its steps, a pass leaves the state and returns the notice that `Updater` gives it as one step |
| Passes.AloneAnUpgradeIsOneStep | src/self_update.rs:452-483 | and so does an upgrade |
| Passes.StepKeepsInv | src/self_update.rs:294-352 | every step of every pass, upgrade, command and acknowledgement keeps each copy's acknowledgement the one that stood when it was read |
| Passes.AcknowledgementsSurvivePassesInFlight | src/self_update.rs:769-777 | in every interleaving the acknowledgement that stands is the last one stored, whatever passes were in flight across it |
| Passes.NoticesGoByTheStart | src/self_update.rs:303-332 | a pass announces the release its receipt ends with exactly if it is later than what runs and the last acknowledgement stored before the pass read the ledger is not for it |
| Passes.APassInFlightMayStillSayIt | src/self_update.rs:303-332 | a run in which a pass announces a release acknowledged while it was in flight, the acknowledgement being there afterwards |
| Passes.TheLatestMovesExactlyWhen | src/self_update.rs:303-315 | a step changes the latest release known exactly if it is a question answered with something else, or a pass's unanswered question whose copy knows otherwise; and what it is then |
| Passes.LearntReleasesStand | src/self_update.rs:303-315 | in every interleaving without an unanswered question whose copy knows otherwise, the latest release is what the last answered question was answered with |
| Passes.OnlyOverlapsRevert | src/self_update.rs:303-315 | such a question takes another process to have moved the latest release since the pass began |
| Passes.ACopyOfNoneUnlearnsIt | src/self_update.rs:304-312 | a run in which a release learnt by one pass is forgotten by the question of another that began before |
| Passes.AnOlderCopyPutsItBack | src/self_update.rs:304-312 | and one in which it is put back to an earlier release |
| Passes.APlacementAdvancesExactlyWhen | src/self_update.rs:317-347 | what is placed in an interleaving is later than what is there exactly if the copy's latest release is |
| Passes.UndisturbedPlacementsAdvance | src/self_update.rs:317-347 | and it is, whenever the receipt told the truth as it was read and nobody has placed anything since |
| Passes.AnEarlierReleaseIsPlacedOver | src/self_update.rs:317-347 | a run in which two passes read the receipt, one places a release, and the other an earlier one over it |
| Updater.Home.InstallOver | src/self_update.rs:337-352 | file, receipt and ledger move together, or, when the installation fails, not at all |
| Updater.Home.Pass | src/self_update.rs:294-332 | the state a pass leaves and the notice it returns; it stamps the question and takes the answer exactly if told to or if the last question is 3600 s old |
| Updater.Home.UpgradeWith | src/self_update.rs:452-483 | the state an upgrade leaves and what it answers |
| Updater.Home.Finish | src/self_update.rs:173-199 | the state a finishing command leaves and what it says; it hands a check off exactly if updates are not off and the last question is 3600 s old, and then claims it |
| Updater.OneFileOneWay | src/self_update.rs:317-352 | a step leaves receipt and files alone or puts a later release over the receipt's file and no other, with the receipt following; only an installing pass or an upgrade run from that file whose installation succeeds does the second |
| Updater.AnUpgradeSaysWhatItDid | src/self_update.rs:421-437 | an upgrade answers that it replaced a release exactly if it did, naming the old and the new one, and otherwise why the file was left alone |
| Updater.AnHourLaterAPassAsks | src/self_update.rs:303-348 | 3600 s after the last question, or when told to, a pass asks, stamps it, learns what is answered, and puts that in place if it owns the file, the answer is later, the policy installs and the installation succeeds |
| Updater.WithinTheHourAPassWaits | src/self_update.rs:303-348 | before that an unprompted pass neither stamps nor learns, and installs what it knows already |
| Updater.ACommandHandsOffExactlyWhen | src/self_update.rs:177-184 | a command hands a check off exactly if updates are not off and 3600 s have passed, and stamps exactly then |
| Updater.ANewReleaseIsSaid | src/self_update.rs:188-199 | a release newly in place is said by the next command running it, unless it is the one last said |
| Updater.RunsKeepTruth | src/self_update.rs:337-352 | over any run the receipt's version is the release at the receipt's path |
| Updater.ReceiptsOnlyAdvance | src/self_update.rs:317-348 | over any run the receipt keeps its path, and its version never goes back |
| Updater.PlacementsStrictlyIncrease | src/self_update.rs:317-348 | of two placements in a run the later is of a later release, over the same file |
| Updater.AnnouncedUnlessLastAcknowledged | src/self_update.rs:294-332 | a pass announces a release exactly if its own file now holds it, it is later than what runs, and the last acknowledgement stored before the pass began is not for it |
| Updater.ALateAcknowledgementRevives | src/self_update.rs:222-228 | an older acknowledgement stored last has the newer release announced again |
| Updater.AcknowledgedStaysQuiet | src/self_update.rs:222-228 | once stored, an acknowledged release is never announced by a pass that begins later, as long as others are acknowledged only when something later is in place |
| Updater.EachReleaseIsSaidOnce | src/self_update.rs:188-199 | over any run a release is said to have been updated to at most once |
| Updater.QuestionsAreAnHourApart | src/self_update.rs:64-67 | with a clock that never steps back, an unprompted question or hand-off comes at least 3600 s after any earlier stamp, answered or not |
| Updater.KnownReleasesAreKept | src/self_update.rs:303-315 | over any run of steps a known latest release is never forgotten, and unanswered questions leave it as it was |
| Notices.StepKeepsInv | src/self_update.rs:100-123 | every step keeps the counter and what publishers owe it equal to the notices written, and every client's seen revision no further than the notice it holds |
| Notices.RunKeepsInv | src/self_update.rs:100-123 | so does every interleaving |
| Notices.SeenIsCurrent | src/self_update.rs:100-113 | a client whose seen revision is the counter holds the current notice, when no publisher is between its write and its count |
| Notices.AnOwedCountHidesTheNotice | src/self_update.rs:115-123 | with one in between it may not |
| Notices.OnlyChangesCount | src/self_update.rs:115-123 | over any run the counter moves once for each change and never for a notice published again |
| Notices.Board.Publish | src/self_update.rs:115-123 | a call running through is a run of the protocol: a write and its count, or, for the notice there is, a write that counts nothing |
| Notices.Board.Since | src/self_update.rs:107-113 | a poll running through is a run of the protocol, and returns what the client then holds and has seen, or nothing if it had seen it |
| Replacing.FileSystem.Copy | src/self_update.rs:628 | a copy empties its target and fills it piece by piece, and touches nothing else |
| Replacing.PlaceBeside | src/self_update.rs:626-634 | copied beside, made executable, synced and renamed over, or cleaned up; a temporary file stays exactly if there was one and its removal failed too |
| Replacing.ContainedSomewhere | src/self_update.rs:618 | the version is looked for anywhere in what the staged file prints |
| Replacing.Replace | src/self_update.rs:606-635 | in every state on the way, whatever fails, the target is wholly old or wholly new, and no other file is touched; it ends new exactly if every call succeeds, and with a temporary file beside it exactly if placing and cleaning up both failed; a target with the temporary name itself is emptied, and gone if that fails and the clean-up does not |
| Themes.LoopsNeverEnd | src/theme.rs:65-71 | a path that comes back to an id never ends |
| Themes.OneWayOut | src/theme.rs:64-89 | a path that ends or fails does so at one place and never repeats |
| Themes.Climb | src/theme.rs:60-89 | the loop ends, and its outcome classifies the path: ended within the bound with every lookup usable, repeated first, too deep, or failed at a lookup |
| Themes.BottomUp | src/theme.rs:90-98 | the files reversed and the ids left once the rest are dropped match one for one; the identity is the requested theme's own file or the default |
| Themes.Assemble | src/theme.rs:99-127 | default, glyphs, ancestors down to the theme, overrides: names and layers one for one |
| Themes.ResolveWithLayers | src/theme.rs:52-142 | succeeds exactly if the path ends within 8 ids, the overrides and glyph choice can be read and the layers make one theme; reports a loop exactly if an id repeats before the bound stops it, depth exactly if neither, and otherwise the failed lookup. Identity and theme layers are the operator's files where there are any, carried palettes only where there are none, the default only where there is neither; an operator's file that cannot be parsed fails whatever palettes are carried |
| Themes.ThePathFollowsParents | src/theme.rs:78-84 | the path goes from an id to what the operator's file extends, or a carried palette's where there is no such file |
| Themes.WhoseLayersTheyAre | src/theme.rs:147-151 | each layer is the file its name stands for, the operator's before a carried palette |
| Themes.WhoseIdentityItIs | src/theme.rs:88-93 | the identity is the requested theme's own file, and the default only where it has none |
| Themes.HowTheyAreStacked | src/theme.rs:95-124 | bottom-up: the default, the chosen glyphs, the ancestors with a file down to the theme, the overrides |
| Themes.WhatIsWrong | src/theme.rs:147-170 | which lookups fail and as what: no path, an operator's file that cannot be parsed, a glyph set, no theme |
| Variations.Parse | conformance/shared/variation.py:37-54 | the loop returns the steps of a specification and its tokens of no known kind |
| Variations.ParseInvertsPrint | conformance/shared/variation.py:37-51 | steps come back as they were written |
| Variations.EveryTypoIsReported | conformance/shared/variation.py:38-53 | nothing is reported exactly if every step is of a known kind |
| Variations.PiecesAreWellCut | conformance/shared/variation.py:57-58 | no piece holds a blank line, and only the last can end in a newline |
| Variations.WholeFramesAreCut | conformance/shared/variation.py:57-58 | frames that hold no blank line and end in no newline are cut off again as they were written |
| Variations.ResplitIsTheSame | conformance/shared/variation.py:57-58 | frames written out with a blank line after each split into the same frames exactly if the last does not end in a newline or is nothing else |
| Variations.ChunkStream | conformance/shared/variation.py:80-129 | the payload verbatim without steps; an error if a number cannot be read, or if a part would be served after a negative pause; otherwise the first k frames, k the first place where enough parts have been served |
| Variations.ANegativePauseRaises | conformance/shared/variation.py:113-114 | such as a lone `slow_sse:-1` over any payload that holds a frame |
| Variations.ServePart | conformance/shared/variation.py:112-129 | one part: pause, halves or breakage, delimiter; nothing past a negative pause |
| Variations.PartIsTheFrame | conformance/shared/variation.py:115-129 | chopped or untouched, the bytes are the frame and the delimiter |
| Variations.ABrokenFrameKeepsItsData | conformance/shared/variation.py:120-125 | a broken frame keeps what follows its first `data:` and loses everything before it |
| Variations.ABrokenFrameWithoutDataKeepsNothing | conformance/shared/variation.py:122-125 | a broken frame that holds no `data:` loses everything |
| Variations.UptoIsDelimited | conformance/shared/variation.py:107-129 | without broken frames, the bytes are the frames, each as often as it is served, a delimiter after each |
| Variations.PacingKeepsEveryByte | conformance/shared/variation.py:14-20 | with slow and chopped steps only, each frame and the delimiter, nothing else |
| Variations.PausesAreCounted | conformance/shared/variation.py:15-20 | a pause before each part where one is asked for, and one more inside each part of a chopped frame |
| Variations.DisconnectingCutsShort | conformance/shared/variation.py:101-110 | under a bound n at most n parts are served, one more only where the last frame is repeated, fewer only where the frames run out, none if n is negative |
| Variations.ABoundYieldsAPrefix | conformance/shared/variation.py:16-17 | with a bound added to other steps, what is served is a prefix of what they serve alone; where they raise alone, for a negative pause, a bound that does not serves nothing |
| Degradations.WhatALoneStepAsks | conformance/shared/variation.py:101-105 | each kind of step by itself sets what it is for and nothing else; a number that cannot be read raises |
| Degradations.TheFirstCounts | conformance/shared/variation.py:101-105 | of several numbers of a kind the first counts |
| Degradations.AllNamesCount | conformance/shared/variation.py:103-104 | of several names of a kind all count, but for a `duplicate` without one |
| Degradations.FoundExactlyWhenHeld | conformance/shared/variation.py:111-120 | a name is found in a frame exactly if it stands somewhere in it |
| Degradations.ANamedEventIsDoubled | conformance/shared/variation.py:103-112 | from `duplicate:` and a name to the bytes: every frame that holds the name twice, the others once |
| Degradations.ANamedEventIsBroken | conformance/shared/variation.py:104-125 | from `malformed:` and a name to the bytes: every frame that holds the name broken, the others as they are |
| Degradations.ABoundServesTheFirst | conformance/shared/variation.py:101-110 | from `disconnect_after:` and a number to the bytes: the first n frames, all for 0, none for a negative n |
| Degradations.OnlyThatFrameIsSplit | conformance/shared/variation.py:112-129 | the named frame alone is split in the middle, with a pause between the halves, and every part is paused before if the stream is slowed |
| Chunked.Stream.ReadLine | conformance/shared/capture.py:29 | up to and with the first newline, or all there is |
| Chunked.Stream.Read | conformance/shared/capture.py:39 | that many bytes or what is left |
| Chunked.ReadChunked | conformance/shared/capture.py:17-41 | the body and the stream left are a function of the bytes; it ends on every stream, each round consuming its size line |
| Chunked.ChunksAreRead | conformance/shared/capture.py:28-40 | whatever follows, the chunks at the front of a stream are decoded first |
| Chunked.TheLastChunkEnds | conformance/shared/capture.py:36-38 | the chunk of size zero ends the body, one more line is read, and nothing behind that |
| Chunked.AMalformedSizeEnds | conformance/shared/capture.py:24-35 | a size line that is no number ends the body with the chunks before it |
| Chunked.RaisesExactlyWhenAsked | conformance/shared/capture.py:28-40 | the decoder raises exactly if some well-formed chunks are followed by a line, ended by its newline or by the stream, whose size is below -1 or past the largest read |
| Chunked.AskingRaises | conformance/shared/capture.py:39 | and then loses the chunks before that line and leaves what follows it |
| Chunked.AMinusOneTakesAll | conformance/shared/capture.py:39 | behind any chunks, a size of -1 takes all that is left for data |
| Chunked.SignsAndPrefixesAreRead | conformance/shared/capture.py:33 | `int` also takes a sign, and `0x` with or without an underscore behind it |
| Chunked.Hex | conformance/shared/capture.py:33 | every size has a hexadecimal spelling |
| Chunked.SizesAreRead | conformance/shared/capture.py:33 | a size is read from its digits in either case with any leading zeros, whatever space and extension follow |
| Chunked.TheSixteenDigits | conformance/shared/capture.py:33 | the digits of a size, in both cases, and no others |
| Chunked.TheFirstDigitWeighsMost | conformance/shared/capture.py:33 | of which the first weighs most |
| Chunked.WhatDigitsAre | conformance/shared/capture.py:33 | underscores are read only one at a time, with a digit behind each |
| Chunked.UnderscoresCountNothing | conformance/shared/capture.py:33 | and count nothing |
| Chunked.SpaceInFrontIsSkipped | conformance/shared/capture.py:33 | space before a size is skipped, and a line of nothing else is a zero |
| Chunked.DecodingInvertsCoding | conformance/shared/capture.py:17-41 | for any non-empty chunks, spellings and extensions of section 7.1 of RFC 9112 without trailers, the data comes back whole, newlines and all, and the stream is left just past the terminator |
| ShimIdentity.ExecOrDie | src/shim.rs:209-226 | extra arguments, then the original ones; the stamp is set on top of the inherited environment |
| ShimIdentity.Run | src/shim.rs:74-163 | original arguments last and untouched; a session first, and only if nothing was typed, an integration is there, nothing is bypassed and the identity is owned |
| ShimIdentity.ASessionIsResumedExactlyWhen | src/shim.rs:74-163 | exactly if nothing was typed, nothing is bypassed, an integration is there, and an agent's name is in the environment under no stamp or this process's own |
| ShimIdentity.StepKeepsInv | src/shim.rs:165-224 | every launch, spawn and shim run keeps each process's identity its launch's and its stamp its own or its encloser's |
| ShimIdentity.EveryForestKeepsInv | src/shim.rs:165-224 | so does every forest |
| ShimIdentity.OwnsExactlyWhen | src/shim.rs:165-188 | in every forest a process owns its launch's identity exactly if it has run a shim itself or no proper ancestor had by the time its line was spawned |
| ShimIdentity.AFirstShimInsideALaunchOwnsNothing | src/shim.rs:167-172 | a first shim below a process that had run one owns nothing |
| ShimIdentity.TheEncloserIsBelow | src/shim.rs:170-172 | the process a stamp names is such an ancestor |
| ShimIdentity.TheFirstShimOfALaunchOwnsIt | src/shim.rs:168-169 | as long as no process of a launch has run a shim, each of them owns its identity |
| ShimIdentity.AReExecOwnsTheEnclosingIdentity | src/shim.rs:183-186 | a second shim run in one process owns the identity of the launch that encloses it |
| ShimIdentity.AnEarlierChildOwnsItToo | src/shim.rs:183-186 | a child from before the stamp and its parent both own one identity |
| Journal.NamesSortLikeTheirDates | src/telemetry.rs:284-286 | dates of one length sort their files |
| Journal.WhichFilesAreDays | src/telemetry.rs:269-280 | a file is a journal's if its name begins with the journal's and a dot and ends in `.log` |
| Journal.WhoseFilesAreTaken | src/telemetry.rs:278-280 | a dotless name takes the files of its own journal and of those whose name goes on from it with a dot, and no others |
| Journal.AnotherJournalIsTaken | src/telemetry.rs:278-280 | a journal that is taken although it is another |
| Journal.TheJournalsThereAreStayApart | src/main.rs:848-852 | of the two journals the program opens, neither takes a file of the other |
| Journal.SortingSorts | src/telemetry.rs:286 | newest first, the same files |
| Journal.PruneToSize | src/telemetry.rs:268-294 | everything past the budget that can be removed is gone, and every other file is as it was |
| Journal.ExactlyTheLongestRunStays | src/telemetry.rs:287-293 | what goes is exactly what lies past the longest newest-first run that fits |
| Journal.ADayGoesExactlyWhen | src/telemetry.rs:287-293 | a day goes exactly if it is not the newest and weighs, with those newer than it, more than the budget, which the largest never is |
| Journal.PruningKeepsTheLongestRun | src/telemetry.rs:260-294 | if every removal succeeds, this journal keeps exactly that run, the newest day always in it, and every other file is untouched |
| Journal.PrunedStaysPruned | src/telemetry.rs:287-293 | what one pruning leaves the next leaves |

## Left out

- Clocks, processes, `curl`, `tar`, checksums, canonicalisation and the release page are what a step is given; JSON writes land.
- Real memory ordering and mutex poisoning: steps are sequentially consistent, and the one poisoning path in `publish`, which counts without writing, is not taken.
- The host's `wait` loop is modelled by the protocol's steps only; `StatusTable` has the sections under the map's lock and the store, which a sequential method can run.
- Scheduling is not assumed fair: `SharedStatus.EveryAskerIsAnswered` bounds the steps there are to take and says what holds when none is left.
- Two processes interleaving inside `amend_ledger`: an amend is one step everywhere; a pass or an upgrade is many steps in `Passes` and one in the runs of `Updater`, a command one in both.
- `install.sh` rewriting the receipt, `tag_version`, `expected_sum`, `Policy::from_env`, and the `sections` and `notes_with` of a changelog.
- Numeric identifiers of 2^64 or more, which are read as alphanumeric, are outside the printer's premise in `Versions.ParseInvertsPrint`; the wrap-around of the 64-bit revision is not modelled.
- Section 10 of Semantic Versioning 2.0.0: build metadata is dropped as the code drops it, without a grammar of its own.
- Python's `isdigit`, `int` and `float` on text and `encode` on names are given to `Screens`, `Settling` and `Variations` as functions; floats are real numbers, so NaN and the infinities are not among the pauses, and no pause is too long.
- `render_screen` with no rows or no columns.
- `settle_and_quiet`'s trace, which reads the clock more often and prints.
- `conn.recv` raising, the WebSocket handshake and `serve`; an end of the stream inside a final frame returns the short payload in `WebSockets.ReadMessage`, and no lemma says more of it.
- How the layers of a theme are merged (`resolve_stack`), which is another crate's: whether they can be is given to `Themes`; and the wording of errors.
- `emit` and the variation record it writes.
- The trailer section of a chunked body, and memory exhausted by a large chunk size.
- An integration's environment additions that name the stamped variables, stamps spelled otherwise than as a decimal pid, reused pids, and the trace context handed on at `exec`.
- File names that are no text, and the appender's own limit on the number of journal files.
