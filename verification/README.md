# Verified model of the CloudComputingLabs programs

This project models the two-phase-commit key-value store of Lab3 (coordinator, participants, record
log, snapshot, RESP parser, reactor and client queues) and the Sudoku solver of Lab1, and proves what
they are for. `dafny verify dfyconfig.toml` checks everything.

## How the store is modelled

`Protocol` is a transition system. Its state holds the coordinator's memory, the record log on disk,
every participant, and a history of commands, decisions and replies. One step is one record written or
one RPC, so a crash can fall between any two of them. An RPC is executed and answered, executed with
the answer lost, or not executed; PREPARE may also answer false, which is what its handler does when
logging fails. An RPC executes when it is made or never. A participant that cannot be reached keeps
its state, and a handler that throws changes nothing and is seen as a failed call. Participants are
numbered in the order of `participants_`, that is by address; an address may be configured twice.

`Decisions` proves what all steps keep, crashes and restarts included. `Agreement` proves what the
stores hold, in two forms at once: equality with the committed store, kept by every step except a crash
that finds unclean stores, and containment of the committed store, kept by every step. The committed
store is `Agreement.Fold`: the commands whose COMMIT was logged, applied in id order to the store the
history starts from. `TwoPhaseCommit` states the results over every run from a first start.
`Coordinators.Coordinator` is the object itself, with the fields and loops of the program; each method
that holds the mutex is proved to be a walk of the transition system from `Idle` back to `Idle`. Its loops over
`participants_` are rounds (`Rounds`): their contracts say, from the outcomes of the calls alone, who is left,
what ran where, and how the request ends. `Sections` says the same of the walks.
`Participants.Participant` is the participant; its handlers are proved equal to the functions that the
transition system uses.

A history starts (`TwoPhaseCommit.FirstStart`) with a log that ends in a nonzero next id and holds no
unfinished record, so `is_recovered` is true from the start; `TwoPhaseCommit.RestartKeepsNextId` shows
that it stays true on every restart. Participants may lag behind at that point, as long as they hold no
key outside the base store.

`History` says what clients see: in a run whose crashes find clean stores the replies are those of one
sequential store that serves the requests one after the other (`History.RunIsSequential`). `Replies`
says what is left of that in every other run.

Results that the code does not deliver are stated as such. Agreement across a restart can fail when a
participant missed a DEL, because `del_keys_` is memory only: `RestartDivergence.RestartCanDiverge` gives
a run from any configuration. `AfterCrash.CrashKeepsAgreementIff` is the exact condition: after a crash
the members agree with the committed store in every run up to the next crash iff no participant then held
a key that is not committed, or no participant had the next id that the log ends with. In the latter case
no participant is ever admitted again, and only then (`AfterCrash.NoMemberAgainIffNoneCurrent`); a crash
between an UNRESOLVED record and its decision is always of that kind
(`AfterCrash.CrashWhilePreparingIsFinal`). What survives regardless: `TwoPhaseCommit.NoLostWrites` bounds
the stores from below, `Origins.OnlyCommittedData` and `Origins.SurplusWasDeleted` from above. A
participant whose answer to a PREPARE is lost keeps that command through its recovery and fails the
COMMITs it is sent as a member: `StalePending.ClientCommitAnsweredIff` is the exact condition and
`StalePending.LostAnswerLeavesPending` the run. A descriptor can be handed to a new client while the
reactor still holds a marked entry of its previous owner; the callback that the client sets is then erased
with that entry, and its request waits for ever. `TcpClients.InStepIffNothingLeftOver` shows that this
entry is all that can go wrong, `Reactors.NextOwnerIsErased` how it comes about. Snapshots carry lengths
in two signed bytes: `Snapshot.RestorableIffSmall` shows that a store can be restored iff no key or value
is longer than 32767 bytes, and the results about stores are about commands within that limit. `SET` then
`GET` returns the tokens of the `SET` iff none holds a space and the last is not empty. The Sudoku solver
answers true for some boards of clashing givens that have no completion: `Sudoku.ClashingGivens`,
`Sudoku.CompletionIffFills`.

Where `Lab3/internal_documentation.md` and the code differ, the model follows the code: PREPARE does not
compare ids and moves none, and snapshot lengths take 2 bytes, low byte first.

Texts are strings of characters that stand for bytes. Ids are unbounded in the protocol; the log encodes
them in 32 bits (`Record.Fits`). The parser refuses numbers above `LONG_MAX`, as `std::stol` does.

## Model

| member | source | states |
|---|---|---|
| TwoPhaseCommit.ReplicaAgreement | Lab3/src/coordinator.cpp:381-637 | with the mutex free, every member has the coordinator's next id and a store equal to the committed commands folded in id order, in every run whose crashes find clean stores |
| TwoPhaseCommit.LifetimeAgreement | Lab3/src/coordinator.cpp:425-637 | the same with no condition in one lifetime of the coordinator |
| TwoPhaseCommit.NoLostWrites | Lab3/src/coordinator.cpp:50-98 | across any crashes and restarts, every member still holds every committed key with its committed value |
| TwoPhaseCommit.DelKeysCover | Lab3/src/coordinator.cpp:535-546 | every key that a configured participant holds and the committed store does not is in del_keys_ |
| TwoPhaseCommit.RecoveryIsExact | Lab3/src/coordinator.cpp:245-262 | an executed RECOVER reads its snapshot to the end, never malformed, and leaves exactly the donor's store, which is the committed one |
| TwoPhaseCommit.StableDecisions | Lab3/src/coordinator.cpp:556-637 | in every run with any crashes, no id has both a COMMIT and an ABORT record, and every decision RPC ever issued has its record |
| TwoPhaseCommit.WrittenBeforeSent | Lab3/src/coordinator.cpp:561-574 | the step that issues a decision RPC finds that decision already written |
| TwoPhaseCommit.CommitOnlyPrepared | Lab3/src/coordinator.cpp:444-484 | a COMMIT for a new id is written only with members left, each of which is at that id and holds that command prepared |
| TwoPhaseCommit.OneUnfinishedRequest | Lab3/src/coordinator.cpp:68-98 | with the mutex free, at most the latest id is unfinished, none while there are members, and assert(0) is never reached |
| TwoPhaseCommit.RestartKeepsNextId | Lab3/src/coordinator.cpp:52-61 | the log always gives back the current next id and the unfinished records, and the next id is never 0 |
| TwoPhaseCommit.InOrderApplication | Lab3/src/participant.cpp:131-171 | each participant applies strictly increasing ids, each with the committed command that was given that id |
| TwoPhaseCommit.CommitHandlerIsSafe | Lab3/src/participant.cpp:142-150 | COMMIT is never called with an id of the future and never dereferences an empty pending set |
| TwoPhaseCommit.GetReadsCommitted | Lab3/src/coordinator.cpp:381-423 | an answered GET replies with the committed value, whichever member serves it |
| TwoPhaseCommit.UpdateReply | Lab3/src/coordinator.cpp:564-597 | a committed update is answered with the reply of the command on the committed store before it, or with nothing if no member is left; an aborted one with the error |
| TwoPhaseCommit.UpdateReplyText | Lab3/src/participant.cpp:174-222 | the same in the client's words: +OK for a committed SET; for a committed DEL the number of distinct listed keys committed before it as `:n`, or -ERROR if there were none; -ERROR for an aborted update |
| Sections.DecidedByPrepares | Lab3/src/coordinator.cpp:444-484 | in every walk for an update there is an ABORT record only if a PREPARE was refused; once the mutex is free again the update is aborted iff one was refused, and committed iff none was and some was answered: a member that cannot be reached stops nothing |
| Sections.AdmittedIff | Lab3/src/coordinator.cpp:205-267 | a heartbeat whose calls are all answered makes the participant a member iff its next id is the coordinator's, or it is one undecided request behind, or there is a member to take a snapshot from |
| AfterCrash.CrashKeepsAgreementIff | Lab3/src/coordinator.cpp:50-196 | after a crash, members agree with the committed store in every run up to the next crash iff at the crash no participant held a key that is not committed, or none was current |
| AfterCrash.NoMemberAgainIffNoneCurrent | Lab3/src/coordinator.cpp:100-267 | no run after a crash, with whatever further crashes, ever has a member again iff no participant had the next id that the log ends with |
| AfterCrash.CrashWhilePreparingIsFinal | Lab3/src/coordinator.cpp:78-84 | after a crash between an UNRESOLVED record and its decision no participant is ever admitted again |
| AfterCrash.OpenStaysAgreed | Lab3/src/coordinator.cpp:78-84 | after such a crash, however unclean the stores were, no run up to the next crash shows a disagreement |
| AfterCrash.BehindOpenStaysAgreed | Lab3/src/coordinator.cpp:224-226 | there is such a crash with unclean stores and a participant that its UNRESOLVED record would have let in before it |
| History.RunIsSequential | Lab3/src/coordinator.cpp:381-637 | the replies of a run whose crashes find clean stores are those of a sequential store that serves the requests in the order they were taken up; each request that ends has one reply, except exactly those that a crash ends; the store ends as the committed store |
| History.EveryStepIsSeen | Lab3/src/coordinator.cpp:381-637 | every step ends at most one request: a GET with the committed value or, if no member is left, the error; an update that took effect with its reply on the store before it, or the empty string if no member is left; another with the error |
| Origins.OnlyCommittedData | Lab3/src/coordinator.cpp:50-637 | across any crashes, every pair a participant holds was held by some participant at the start or was written by a committed SET |
| Origins.SurplusWasDeleted | Lab3/src/coordinator.cpp:50-637 | across any crashes, every key a participant holds and the committed store does not was removed by a committed DEL |
| Replies.GetInEveryRun | Lab3/src/coordinator.cpp:381-423 | across any crashes, an answered GET replies with the committed value if there is one; otherwise with nil, or with a value that was there at the start or came from a committed SET and whose key a committed DEL removed |
| Replies.UpdateInEveryRun | Lab3/src/coordinator.cpp:564-597 | across any crashes, a committed update that a member is left to answer gets the reply of the command on some store that contains the committed one before it: +OK for a SET; the count of a DEL is at least that of the committed keys |
| StalePending.ClientCommitAnsweredIff | Lab3/src/participant.cpp:137-150 | in every run with any crashes, a member reached in a client's COMMIT loop answers and stays a member iff it holds no prepared command with a lower id; otherwise its handler throws and it is erased |
| StalePending.LostAnswerLeavesPending | Lab3/src/coordinator.cpp:228-262 | from every start with a current participant and a lagging one before it, both without pending commands, a run in which the answer of one PREPARE is lost readmits its participant with that command still pending, and reaches a COMMIT call to it with a higher id |
| StalePending.MembersStayClear | Lab3/src/participant.cpp:237-270 | whatever commits, aborts and recoveries of others, in every run: a member with no prepared command below the next id holds none at all whenever the mutex is free, for as long as it stays a member |
| RestartDivergence.RestartCanDiverge | Lab3/src/coordinator.cpp:228-262 | in any configuration, from every start with a lagging participant that holds a key and a current one that has a store within the snapshot limit and no pending id up to the next one: a run with one crash leaves both as current members of which only the lagging one still holds the key, deleted by a committed DEL |
| RestartDivergence.UncleanDiverges | Lab3/src/coordinator.cpp:50-267 | from every restart at which one participant is current, whatever decision is unfinished, and another holds a key it does not, a run without a crash ends with both as current members that differ on the key |
| RestartDivergence.StartExists | Lab3/src/coordinator.cpp:114-142 | such a start exists and is a first start |
| Decisions.StepKeeps | Lab3/src/coordinator.cpp:68-637 | every step of the system, crashes included, keeps the invariant on log, decisions, participants and phase |
| Decisions.CommitSettles | Lab3/src/participant.cpp:137-150 | a participant that answers COMMIT is past the id |
| Decisions.SortedUnfinished | Lab3/src/coordinator.cpp:72-76 | the records to settle after a start or an admission are none or the single latest one |
| Agreement.StepAgrees | Lab3/src/coordinator.cpp:68-637 | every step keeps the stores agreed; a crash keeps equality if the stores are clean, and containment always |
| Agreement.RecoveredMatches | Lab3/src/participant.cpp:351-391 | RECOVER with the donor's snapshot and del_keys_ makes the target match the committed store |
| Agreement.FullMembership | Lab3/src/coordinator.cpp:179-180 | as many members as configured addresses means that every participant is a member |
| Protocol.Step | Lab3/src/coordinator.cpp:54-637 | every step keeps participants_ an ordered map of configured addresses and the loop positions inside it |
| Protocol.Insert | Lab3/src/coordinator.cpp:178 | an admitted address is added to the ordered map and nothing else changes |
| Coordinators.Coordinator.Log | Lab3/src/record.cpp:97-141 | logging changes file, map and decision history as the transition system says |
| Coordinators.Coordinator.HandleDbGetRequest | Lab3/src/coordinator.cpp:381-423 | the members that fail are erased one after the other, the first that answers gives the reply and stays, and if none does the reply is the error; this is one walk of the transition system back to Idle, and with agreed stores it replies with the committed value |
| Coordinators.Coordinator.HandleDbUpdateRequest | Lab3/src/coordinator.cpp:425-553 | a SET or DEL is one walk; it is aborted iff a PREPARE was refused and committed iff none was and some was answered; the next id, the record that is left, the remembered keys, the members and the error reply in each case; with agreed stores a committed one took effect and has its reply on the committed store before it (nothing if no member is left), and another had no effect |
| Coordinators.Coordinator.PrepareAll | Lab3/src/coordinator.cpp:444-468 | everybody is asked in order unless a refusal ends the loop; the members left are those whose PREPARE was answered and those not asked, and each executed call has prepared the command on its participant and nowhere else |
| Coordinators.Coordinator.SendCommits | Lab3/src/coordinator.cpp:564-583 | COMMIT goes to every member once; those left are the ones whose call and handler answered; the reply is the first answer that is not empty |
| Coordinators.Coordinator.CommitDbRequest | Lab3/src/coordinator.cpp:556-598 | COMMIT is logged, sent to every member, and its record removed iff a member is left; a client gets the first answer that is not empty |
| Coordinators.Coordinator.AbortDbRequest | Lab3/src/coordinator.cpp:601-637 | ABORT is logged, sent to every member, those that fail are erased, the record is removed iff a member is left, and a client gets the error |
| Coordinators.Coordinator.HandleUnfinishedRecords | Lab3/src/coordinator.cpp:68-98 | settles every record of the copied map as the transition system does; no other status occurs |
| Coordinators.Coordinator.RecoverParticipant | Lab3/src/coordinator.cpp:205-267 | an exception iff NEXT_ID is not answered; at once true if the participant is current or one undecided request behind; otherwise the members that give no snapshot are erased, and true iff some member gives one and RECOVER and SET_NEXT_ID are answered; the store and next id it leaves on the participant in every case |
| Coordinators.Coordinator.HeartbeatParticipant | Lab3/src/coordinator.cpp:161-195 | a failed heartbeat erases the address and nothing else; one of a member changes nothing; a recovered participant joins the members that are left, and del_keys_ is emptied iff they are then all; any other round leaves it out |
| Coordinators.Coordinator.InitParticipants | Lab3/src/coordinator.cpp:100-152 | after a walk through all configured addresses the members are exactly those whose last call was answered with the coordinator's next id, or with the one before if the next id itself has an ABORT record |
| Coordinators.Coordinator.Start | Lab3/src/coordinator.cpp:50-66 | a start is a walk from Down to Idle that takes the next id from the log, replies nothing, and keeps the invariant |
| Coordinators.Coordinator.Crashed | Lab3/src/coordinator.hpp:101-120 | a crash loses memory and keeps log and participants |
| Coordinators.LeadsAgrees | Lab3/src/coordinator.cpp:381-637 | every such walk keeps the stores agreed |
| Participants.Participant.HandleGet | Lab3/src/participant.cpp:20-31 | replies with the stored value, or with the array of the one string nil |
| Participants.Participant.HandlePrepare | Lab3/src/participant.cpp:65-84 | adds the command under its id unless that id is pending, and compares no ids; answers false and changes nothing when logging throws |
| Participants.Participant.HandleSet | Lab3/src/participant.cpp:174-192 | puts the pair and replies +OK |
| Participants.Participant.HandleDel | Lab3/src/participant.cpp:195-222 | removes exactly the listed keys; replies with the number of distinct listed keys that were present, or with the error if there were none |
| Participants.Participant.HandleCommit | Lab3/src/participant.cpp:131-171 | new state and answer for passed, future, current and stale ids |
| Participants.Participant.HandleAbort | Lab3/src/participant.cpp:237-270 | of the current id: removes the lowest pending command and moves the id on; of a later one: only catches up; of an earlier one: nothing; the store stays in all cases |
| Participants.AbortRemoves | Lab3/src/participant.cpp:264-268 | an ABORT of the current id leaves nothing pending if nothing else was |
| Participants.Participant.HandleSetNextId | Lab3/src/participant.cpp:279-282 | sets the next id and nothing else |
| Participants.Participant.HandleGetSnapshot | Lab3/src/participant.cpp:314-324 | the snapshot is the encoding of the whole store in key order |
| Participants.Participant.HandleRecover | Lab3/src/participant.cpp:351-391 | deletions, then every pair of the snapshot; stops at malformed bytes |
| Participants.RepeatedCommitIsIdempotent | Lab3/src/participant.cpp:137-140 | a repeated COMMIT changes nothing and is answered with the empty string |
| Participants.CommitAnswersIffApplied | Lab3/src/participant.cpp:142-150 | a current id is answered iff it is applied, and a handler that throws changes nothing |
| KeyValue.ReplyText | Lab3/src/participant.cpp:11-12 | the texts of the replies, and that a DEL replies the error iff it finds no listed key |
| RecordLog.ReplayIsLastRecord | Lab3/src/record.cpp:201-214 | replay keeps exactly the last record of each id, unless it is a DONE record |
| RecordLog.ReplayRefinesMemory | Lab3/src/record.cpp:97-141 | after any sequence of log calls, replaying the file gives the map in memory and the last next id |
| RecordLog.CompactionIsInvisible | Lab3/src/record.cpp:112-132 | truncating the file never changes what replay gives |
| RecordLog.EncodeUint32 | Lab3/src/record.cpp:34-41 | appends four bytes whose little-endian value is the number |
| RecordLog.DecodeUint32 | Lab3/src/record.cpp:61-74 | reads the little-endian value of four bytes, and throws iff fewer are left |
| RecordLog.ToBinary | Lab3/src/record.cpp:9-18 | nine bytes that hold status, id and next id |
| RecordLog.Parse | Lab3/src/record.cpp:20-29 | the record that the first nine bytes hold; throws iff there are fewer |
| RecordLog.ImageIsInjective | Lab3/src/record.cpp:201-204 | a file determines its records |
| RecordLog.RecordManager.constructor | Lab3/src/record.cpp:193-214 | opening a file of whole records gives their replay and last next id |
| RecordLog.RecordManager.Log | Lab3/src/record.cpp:97-141 | the nine bytes of the record are appended, or are the whole file if it is a DONE record that empties the map; the map loses the id of a DONE record and gains any other, and is the replay of the file |
| RecordLog.Reopen | Lab3/src/record.cpp:80-95 | closing and opening gives back the same records, map and last next id |
| Snapshot.RecoverRoundTrip | Lab3/src/participant.cpp:351-391 | RECOVER of a snapshot gives the target minus the deletions, overlaid by the snapshotted store |
| Snapshot.RestorableIffSmall | Lab3/src/participant.cpp:330-340 | a snapshot restores an empty store exactly iff no key or value is over 32767 bytes |
| Snapshot.RecoverIsExactIff | Lab3/src/participant.cpp:351-391 | RECOVER makes the target equal to the donor iff every surplus key is among the deletions |
| Snapshot.RecoverReads | Lab3/src/participant.cpp:351-391 | whatever the bytes, RECOVER puts the whole pairs they begin with, the later over the earlier, after the deletions; it succeeds iff nothing is behind them, answers false iff they are cut off at a length, and reads past the end iff a length is negative or too large |
| Snapshot.ToShort | Lab3/src/participant.cpp:331 | the cast to short keeps lengths up to 32767 and wraps the others |
| Text.ValueOfDecimal | Lab3/src/command_parser.cpp:63-83 | a printed length reads back |
| Resp.BuildResult | Lab3/src/participant.cpp:34-47 | the reply is the array of the space-delimited parts of the value |
| Resp.SplitOfJoin | Lab3/src/participant.cpp:36-45 | splitting joined tokens gives them back, except that an empty last token is dropped |
| Resp.SetThenGet | Lab3/src/command_parser.cpp:131-143 | joining and splitting gives the tokens iff none holds a space and the last is not empty |
| EndToEnd.SetThenGetReply | Lab3/src/participant.cpp:34-54 | the bytes of a SET, parsed and applied, make a GET reply with exactly its tokens, under that same condition and only then |
| EndToEnd.EncodeArrayIsInjective | Lab3/src/participant.cpp:49-54 | an encoded array determines its strings |
| CommandParser.Parser.ReadNumElem | Lab3/src/command_parser.cpp:63-83 | reads a number as specified, with its three outcomes |
| CommandParser.Parser.ReadBulkString | Lab3/src/command_parser.cpp:170-184 | reads a bulk string as specified |
| CommandParser.Parser.ReadJoined | Lab3/src/command_parser.cpp:104-116 | reads at least one string and joins as many as the count declares |
| CommandParser.Parser.ReadKeys | Lab3/src/command_parser.cpp:154-163 | reads at least one key and as many as the count declares |
| CommandParser.Parser.ReadCommandHere | Lab3/src/command_parser.cpp:35-61 | reads one command, with the same outcome and cursor as the specification, for every declared count |
| Grammar.CommandIff | Lab3/src/command_parser.cpp:35-61 | the parser reads a command, with its cursor, iff one stands there in a grammar of the bytes that knows nothing of the parser |
| Grammar.SyntaxIff | Lab3/src/command_parser.cpp:63-202 | it reports a syntax error iff the bytes hold a wrong sign, no digit, a number that is too large, a wrong separator, an unknown verb or a count that is too small; everything else is a command or incomplete |
| ParserFacts.StableUnderExtension | Lab3/src/command_parser.cpp:204-226 | more bytes change neither a command nor a syntax error |
| ParserFacts.ProperPrefixIsIncomplete | Lab3/src/command_parser.cpp:212-226 | every proper prefix of a command is incomplete |
| ParserFacts.CommandCarries | Lab3/src/command_parser.cpp:35-61 | what stands before and behind a command does not change how it is read |
| ParserFacts.GetRoundTrip | Lab3/src/command_parser.cpp:98-119 | a printed GET followed by anything reads back with its keys joined, consuming exactly its bytes |
| ParserFacts.SetRoundTrip | Lab3/src/command_parser.cpp:121-146 | the same for SET, with its value tokens joined |
| ParserFacts.DelRoundTrip | Lab3/src/command_parser.cpp:148-167 | the same for DEL, with its keys |
| Connection.ParseDbRequests | Lab3/src/coordinator.cpp:639-652 | reads commands one behind the other, each where the one before ended, until the end, a syntax error or an incomplete command; the count is where the last one ended |
| Connection.ParsedExactly | Lab3/src/coordinator.cpp:639-652 | a buffer parses to a list of commands, a position and a reason to stop iff the commands stand in it one behind the other up to that position and that reason holds there |
| Connection.ClientConnection.HandleDbRequests | Lab3/src/coordinator.cpp:284-379 | after every read, failed ones and reads that end in a disconnect included, the commands dispatched so far are those that stand one behind the other in all the bytes received, and what is carried over is the rest |
| Connection.ChunkInvariance | Lab3/src/coordinator.cpp:284-379 | for every stream and every cutting, and whenever the client is disconnected: exactly the commands that stand one behind the other in the bytes received, up to their first syntax error or incomplete tail, are dispatched, the tail is carried over, and reading is over iff there is a syntax error, a failed read or a disconnect |
| Connection.PipelineIsDispatched | Lab3/src/coordinator.cpp:284-379 | a client that sends any number of printed requests, in whatever chunks, has exactly those dispatched, in order |
| Connection.PipelineRoundTrip | Lab3/src/coordinator.cpp:639-652 | printed requests in one buffer parse back to all of them, followed by whatever the rest parses to |
| Connection.SameStreamSameCommands | Lab3/src/coordinator.cpp:654-678 | two cuttings of the same bytes dispatch the same commands, and leave the same state unless one client is lost |
| Connection.ParseExtension | Lab3/src/coordinator.cpp:639-652 | more bytes keep the parsed commands and go on where parsing stopped |
| Sudoku.IsSafe | Lab1/src/sudoku_basic.h:5-33 | true iff no cell of the row, column or box holds the value |
| Sudoku.GetUnassignedLocation | Lab1/src/sudoku_basic.h:35-45 | the first empty cell in row-major order, or (9, 9) iff there is none |
| Sudoku.SolveSudokuBasic | Lab1/src/sudoku_basic.h:48-75 | for any board: true and the least filling in row-major order, which is a valid completion iff the givens are digits without clashes; or false, an untouched board and no filling |
| Sudoku.SolvePuzzle | Lab1/src/sudoku_basic.h:48-75 | for digits and consistent givens: true iff a valid completion exists, and then the least one |
| Sudoku.CompletionIffFills | Lab1/src/sudoku_basic.h:48-75 | a filling is a valid completion iff the givens are digits and consistent |
| Sudoku.ClashingGivens | Lab1/src/sudoku_basic.h:50-54 | a full board of clashing givens counts as solved though nothing completes it |
| Sudoku.FirstFillIsUnique | Lab1/src/sudoku_basic.h:60-72 | the least filling is one board |
| Reactors.RunExclusive | Lab3/src/tcp_server/reactor.cpp:44-285 | over all interleavings, a descriptor has one outstanding task of a kind iff it is tracked with that flag set, and a marked descriptor is executing |
| Reactors.ErasedWhenIdle | Lab3/src/tcp_server/reactor.cpp:232-247 | a descriptor that is erased has no callback left running |
| Reactors.DispatchKeepsTracked | Lab3/src/tcp_server/reactor.cpp:184-214 | a whole dispatch round erases no descriptor: the removal in its loop is never taken |
| Reactors.ErasedOnlyBy | Lab3/src/tcp_server/reactor.cpp:89-112 | after any run a descriptor is erased only by unregistering it while neither callback runs, or by the end of its last running callback once it is marked |
| Reactors.NextOwnerIsErased | Lab3/src/tcp_server/reactor.cpp:89-112 | from a new reactor, a run after which the entry of an unregistered descriptor is still there, marked; a callback set for the descriptor's next owner is erased when the old task ends |
| Reactors.WatchedExactly | Lab3/src/tcp_server/reactor.cpp:142-177 | select watches exactly the callbacks that are set and not running; the poll list holds exactly their descriptors and the marked ones |
| Reactors.ReadyIsDispatched | Lab3/src/tcp_server/reactor.cpp:184-214 | a ready, wanted callback of a polled descriptor is outstanding after the round |
| Reactors.StartedExactly | Lab3/src/tcp_server/reactor.cpp:184-214 | a dispatch round starts a callback iff its descriptor is on the poll list and tracked, the callback is set and not running, and select reported it ready, except the notifier's when it is ready |
| Reactors.Reactor.RegisterFd | Lab3/src/tcp_server/reactor.cpp:44-56 | both callbacks are as asked, the mark is cleared, what runs goes on running; all other entries stay |
| Reactors.Reactor.SetCallbackOf | Lab3/src/tcp_server/reactor.cpp:68-87 | new state of the map, with an entry created if there is none |
| Reactors.Reactor.UnregisterFd | Lab3/src/tcp_server/reactor.cpp:89-112 | marks an executing descriptor, erases another |
| Reactors.Reactor.InitSelectFds | Lab3/src/tcp_server/reactor.cpp:142-177 | poll list and select sets for any order of walking the map |
| Reactors.Reactor.DispatchSelect | Lab3/src/tcp_server/reactor.cpp:184-214 | afterwards exactly those tasks are outstanding that were before or whose callback was wanted, polled and ready; no entry is erased |
| Reactors.Reactor.DispatchTask | Lab3/src/tcp_server/reactor.cpp:216-228 | sets the flag and adds one task |
| Reactors.Reactor.CompleteTask | Lab3/src/tcp_server/reactor.cpp:231-250 | clears the flag and erases a marked descriptor whose other callback is not running |
| TcpClients.QueueAndCallbackAgree | Lab3/src/tcp_server/tcp_client.cpp:74-201 | for every client on a socket just accepted or connected, on a reactor in any state, unless a marked entry is left under its descriptor: while it stays connected, whatever interleaves, its callback is set iff requests wait, do_read never meets an empty queue, requests are served in order, none skipped or repeated |
| TcpClients.InStepIffNothingLeftOver | Lab3/src/tcp_server/tcp_client.cpp:15-56 | for every such client: that holds in every run iff no marked entry of a previous owner is left under its descriptor |
| TcpClients.LeftOverStrands | Lab3/src/tcp_server/reactor.cpp:231-250 | with such an entry, a run ends with a waiting request on a descriptor that the reactor does not know |
| TcpClients.LeftOverIsReachable | Lab3/src/tcp_server/reactor.cpp:89-112 | there is a run of a new reactor after which an accepted client meets such an entry |
| TcpClients.WaitingIsWatched | Lab3/src/tcp_server/tcp_client.cpp:168-171 | for every such client without such an entry, a waiting request is watched by the next poll round or a task on its descriptor has not ended |
| TcpClients.DueOnlyWhenReady | Lab3/src/tcp_server/reactor.cpp:198-213 | for every such client: do_read becomes due only by a dispatch round for which select had reported its descriptor ready, with its callback set and no earlier task outstanding |
| TcpClients.ActKeeps | Lab3/src/tcp_server/tcp_client.cpp:74-201 | each half of a critical section, and each foreign reactor step, keeps the coupling |
| TcpClients.RequestQueue.constructor | Lab3/src/tcp_server/tcp_client.cpp:15-19 | a client on a connected socket has an empty queue and registers nothing with the reactor |
| TcpClients.RequestQueue.AsyncRequest | Lab3/src/tcp_server/tcp_client.cpp:74-112 | sets the callback and appends the request; throws and changes nothing once disconnected |
| TcpClients.RequestQueue.DoRequest | Lab3/src/tcp_server/tcp_client.cpp:148-201 | serves the front request and clears the callback behind the last one, whether or not the socket call works, and reports which |
| TcpClients.RequestQueue.OnAvailable | Lab3/src/tcp_server/tcp_client.cpp:115-146 | one request is served; if its socket call failed, the client is then disconnected, its requests dropped and its descriptor given up |
| TcpClients.RequestQueue.Disconnect | Lab3/src/tcp_server/tcp_client.cpp:37-56 | drops the requests and unregisters the descriptor, once |

## Left out

- Participant self-recovery and the command log: the recovery calls the commit handler under the mutex it holds, reads commands from the record file, and the command encoder omits the id that the decoder expects, so no restart claim holds there.
- Starts with `is_recovered` false, which admit participants without a snapshot.
- Liveness beyond `AfterCrash` and `StalePending`: that a participant that can be readmitted is readmitted in the end.
- What disconnects a client, and when: the ERROR reply to one of its commands, or the client itself, is a parameter of `Connection`.
- Crashes inside a 9-byte write or inside log compaction, disk and leveldb errors, id wrap-around, and client requests that race with startup recovery.
- Sockets, select itself, rpclib and msgpack, pipes, timeouts, console output, user callbacks and the `stop` of the reactor.
- The window between an exception in a heartbeat and the erasure that follows it is a step of its own; a constructor of `rpc::client` that throws is not modelled.
- Coordinators.Coordinator.HandleDbUpdateRequest: stands for handle_db_set_request and handle_db_del_request, which differ only in the PREPARE they send and in the keys a DEL remembers.
- Coordinators.Coordinator.HeartbeatParticipant: one address of the endless loop over all addresses.
- RecordLog.RecordManager.constructor: requires a file of whole records, because the source reads past the end of any other.
- Reactors.Reactor.InitSelectFds: the order in which the hash map is walked is a parameter; callbacks are only known to be set or null.
- TcpClients.RequestQueue.Disconnect: one direction of the client; the other queue is cleared alike, and the user's disconnection callback is not part of this model.
- A previous owner of a descriptor that calls the reactor after its socket was closed: its `disconnect` unregisters before it closes, and later calls pass -1.
- The thread pools, the Lab2 HTTP server, configuration and flag parsing, and board serialization, which would only add easy members.
