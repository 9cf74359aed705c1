# QUP, modelled and proved

QUP is a small binary key/value protocol between a client and a node. A frame is an
opcode, a big-endian length, a payload and one checksum byte. A node offers a table of
keys; a client reads and writes them, and may observe them, after which the node sends
`CHANGED` frames that carry only a keyref. This project models the embedded server, the
codec both sides share, and the two client loops that follow a node's state, and proves
what they promise.

The modules, from the wire up:

- `Bytes`, `Errors`, `Checksum`, `Opcodes`, `Utf8`, `Utf8Stream`, `Caps`, `Messages`,
  `Decoder`, `Frames`: the codec. `Messages` holds the reference encoding and decoding;
  `Decoder`, `Frames`, `Caps` and `Utf8Stream` hold the loops and cursors of the program,
  proved against it.
- `WireForm`, `CodePoints`: the wire format and UTF-8 once more in raw numbers, and that
  the codec is exactly this.
- `Requests`, `RequestReader`, `RequestBytes`: what the next request of a byte stream
  is, the embedded server's streaming reader, which decodes a frame in constant memory,
  and which bytes make it see which request.
- `Values`, `Keys`: the value types of keys, the table of wire names behind a derived
  enum, and the key object with its value, wrapping generation and signals.
- `Node`, `NodeInvariant`, `NodeHistory`, `NodeValues`, `NodeReplies`, `NodeAnswers`,
  `NodeFraming`, `Pipelining`: the node as a system of small steps. Any number of tasks
  set keys in four steps each (store, count, wake local waiters, signal the server); the
  server loop takes requests or the signal, answers, and flushes, or stops at a response
  that cannot be sent. A run is any interleaving. `Slot.count` and `Slot.seenCount` are
  the true numbers of updates behind the two `u32` generations.
- `Turns`, `Sending`, `ServerLoop`, `Serving`, `ServedBytes`, `WakeUps`: the server as
  it is written, a class over arrays that appends to a byte sink, proved against
  functions of the key slots. `Turns` shows that an uninterrupted turn is a run of the
  small steps, so that what is proved about runs holds for the loop, and `Serving.Serve`
  goes from bytes to bytes.
- `NextWaiter`: a local task waiting for the next update of a key.
- `Polls`, `Worker`, `Passes`, `Mirror`, `MirrorLimits`, `MirrorStale`, `MirrorBytes`,
  `MirrorRaces`, `Shown`, `WorkerLoop`, `Follow`, `FollowPrints`: how a client takes
  messages off its bytes, the terminal viewer's worker and the command line's follow
  mode, each composed with the node over FIFO channels.

## Where the code and its promises differ

- Generations wrap at 2^32. A look misses updates, and a waiter fails to return, exactly
  when their number is a multiple of 2^32 (`NodeInvariant.VisitMissesExactlyOnWrap`,
  `NextWaiter.ReturnsExactlyOffWrap`); runs on which it happens are constructed
  (`MirrorLimits.StaleAfterWrap`, `NextWaiter.AWholeWrapIsMissed`).
- A `WRITE` answered with `ERROR` throws away the keyrefs collected while waiting. The
  mirror can then be stale (`MirrorLimits.StaleAfterRejectedWrite`); the model records
  such keyrefs until the key is read again, `Mirror.MirrorConverges` names them, and
  `MirrorStale` proves that a stale value lasts.
- The mirror of a key that is not observed is the value of the last answer for it
  (`Shown.IdleShowsTheLastAnswer`), so a local set behind that answer does not show. For
  a `WRITE` the answer comes after the store, and a local set between the two does not
  show either, although nothing is set behind the answer
  (`MirrorRaces.WrongAfterRacingSet`).
- When a poll of the worker times out inside a frame, the bytes of that frame already
  taken are lost. That is harmless exactly at a frame boundary
  (`Polls.DropHarmlessOnlyAtBoundary`), and `MirrorBytes.StaleAfterTornPoll` is a run in
  which the mirror stays stale for it.
- When the notifier wins the race with a request reader, the reader's local header is
  lost. That is harmless exactly at a frame boundary
  (`Requests.RestartHarmlessOnlyAtBoundary`), and `WakeUps.WriteThenThreeBytes` is a run in
  which a request is lost for it.
- Node ids of 65534 and 65535 bytes, and key names and stored strings of 65533 to 65535
  bytes, pass their checks and cannot be framed; an initial key value is stored without
  validation. Asked for one of these, the server ends the connection with nothing sent:
  `Node` stops, and `NodeFraming.NeverStopsExactlyWhenSendable` is the exact condition
  under which no request can make it.
- Keyref 65535 is never below the advertised count, which saturates (`NodeAnswers.KeyCountIsTheCount`).
- PROTOCOL.md lines 122-129 check the checksum before the opcode; the streaming reader
  checks the opcode first and then consumes only the three header bytes. Acceptance and
  decoded requests agree; the error reported for a frame with several faults may not.
  Each has its own: `WireForm.FrameVerdict` and `WireForm.RefusesTheFirstFault` for whole
  frames, `RequestReader.ReadRequest` for the stream.
- PROTOCOL.md line 236 admits in `CAPS` only pairs the protocol defines; the parser also
  accepts pairs whose request it does not know. The model follows the parser.

## Assumptions

Keyrefs of a registry are unique where a lemma says `UniqueKeyrefs` (the program asserts
it in debug builds), each key is attached to at most one server, `HasObservable` is
computed from the keys as the `run!` macro does, and transports are FIFO channels that
lose nothing. Atomics, critical sections and the one-bit signal are single steps.

Two cancellations are assumed to come between two frames, never inside one. In `Node`
and `Serving` the notifier wins the race with the request reader only before the reader
has taken a byte; `WakeUps` drops that assumption. In `Worker` and `Mirror` a poll times
out only before it has taken a byte; `MirrorBytes` drops that one. Each comes with the
equivalence that makes it exact and a run that fails without it.

A request in `Node` is one that can come in a frame, and set values are UTF-8, as the
program's string types guarantee.

## Model

| member | source | states |
|---|---|---|
| `NodeInvariant.NoLostChangeStep` | crates/qup-embassy/src/lib.rs:433-445 | every step of setters and server keeps: an observed key whose generation differs from the one last seen is signalled, or a setter is between its bump and its signal, or the server will still visit it |
| `NodeInvariant.SoundStep` | crates/qup-embassy/src/lib.rs:508-561 | every step keeps the slots, setters and loop position well-formed: both u32 generations are the true counts modulo 2^32, only observable keys are observed, a WRITE in progress is the one the request asked for |
| `NodeInvariant.InvHoldsOverRuns` | crates/qup-embassy/src/lib.rs:508-561 | both hold in every reachable state of every interleaving |
| `NodeInvariant.AtRestNothingIsPending` | crates/qup-embassy/src/lib.rs:513-561 | at rest the last look at every observed key saw its current generation; the true counts then agree exactly when fewer than 2^32 updates separate them |
| `NodeInvariant.VisitMissesExactlyOnWrap` | crates/qup-embassy/src/lib.rs:691-705 | a visit of an observed key emits CHANGED if and only if the number of updates since the last look is not a multiple of 2^32 |
| `NodeHistory.HistoryStep` | crates/qup-embassy/src/lib.rs:691-705 | every step keeps the observation flags equal to what the client was told, and the numbers of reported and unreported updates equal to what the history of the connection shows |
| `NodeHistory.ChangedOnlyWhileObserved` | PROTOCOL.md:624 | every CHANGED(k) comes after the OK of an OBSERVE(k) with no OK of an UNOBSERVE(k) in between, k is below the advertised count, and the advertised capabilities end in the change marker |
| `NodeHistory.WrittenPrecedesChanged` | crates/qup-embassy/src/lib.rs:621-645 | a CHANGED frame behind the store of a WRITE comes after the WRITTEN frame that answers that WRITE |
| `NodeHistory.NeverMoreChangedThanUpdates` | crates/qup-embassy/src/lib.rs:691-705 | since the latest OBSERVE of a key there were at most as many CHANGED frames as accepted updates, in every run and whatever the generation does |
| `NodeHistory.AtRestEverythingIsReported` | crates/qup-embassy/src/lib.rs:513-561 | at rest the unreported updates number a multiple of 2^32, and every update is reported if and only if they are fewer than 2^32 |
| `NodeHistory.UnreportedMeaning` | crates/qup-embassy/src/lib.rs:653-654 | the unreported updates are the bumps of the key behind the last of its CHANGED and OBSERVE answers |
| `NodeHistory.CountsMeaning` | crates/qup-embassy/src/lib.rs:653-654 | the numbers of CHANGED frames and updates are those of the places in the history behind the latest OBSERVE of the key, and the unreported ones those behind the latest OBSERVE or CHANGED |
| `NodeInvariant.OnlyObservableWakes` | crates/qup-embassy/src/lib.rs:433-445 | as long as no observable key is stored, no run raises the notifier |
| `NodeValues.RunsHoldTheLastStore` | crates/qup-embassy/src/lib.rs:351-364 | in every run a key holds what was stored last, and every VALUE decided for it is what it held then |
| `NodeValues.RememberedStep` | crates/qup-embassy/src/lib.rs:602-645 | every step keeps: the slot holds the last store; what is known of it from WRITEs and VALUEs with no local set since is what it holds |
| `NodeHistory.AtMostOncePerTurn` | crates/qup-embassy/src/lib.rs:677-708 | between two turns of the server loop a key is reported at most once, however the setters interleave |
| `NodeReplies.RunsAreSequential` | crates/qup-embassy/src/lib.rs:564-675 | in every run the answers are those of a sequential node over a dense key table that carries out the local sets and the requests in the order they took effect, and the stored values agree; the last answer is not sent while its WRITE is being counted, or when it does not fit a frame and has stopped the node |
| `NodeReplies.OneReplyPerRequestInOrder` | crates/qup-embassy/src/lib.rs:513-561 | the frames put on the wire, with CHANGED erased, are one defined reply that fits a frame for each answered request; the answered requests are the first ones sent, all of them when nothing is left to do; a node that has stopped was asked next for a response that does not fit |
| `NodeFraming.NeverStopsExactlyWhenSendable` | crates/qup-embassy/src/lib.rs:721-860 | no run stops the node, given local sets that fit, if and only if on connecting the node id has at most 65533 bytes, every name below the count at most 65532, and every readable value below it validates with at most 65532 |
| `NodeFraming.SendableOverRuns` | crates/qup-embassy/src/lib.rs:351-364 | that condition is kept by every run whose local sets of readable keys are of at most 65532 bytes, WRITEs included |
| `NodeFraming.SendableExactlyWhenResponsesFit` | crates/qup-embassy/src/lib.rs:564-675 | it holds exactly when every request that can come in a frame has a response that fits one |
| `NodeFraming.FramesOkOverRuns` | crates/qup-embassy/src/lib.rs:828-860 | everything the node sends in any run is encodable |
| `NodeInvariant.FramedWriteFits` | crates/qup-embassy/src/lib.rs:631-635 | what a WRITE that came in a frame stores fits a frame again |
| `Serving.AllFitExactlyWhenSendable` | crates/qup-embassy/src/lib.rs:493-562 | every list of requests that can come in frames is answered to its end if and only if that condition holds |
| `Pipelining.PipelinedBytes` | crates/qup-embassy/src/lib.rs:493-562 | for the bytes of any list of requests and any interleaving with setters, the bytes that come back read as frames which, with CHANGED erased, are the answers of the sequential node to the first of those requests, in order; to all of them at rest; the node never stops when its texts are short enough |
| `NodeReplies.RepliesAreDefined` | crates/qup-core/src/types/opcode.rs:154-164 | every reply is the response defined for the request, or ERROR with a code listed for it |
| `NodeReplies.ResponseIsTableReply` | crates/qup-embassy/src/lib.rs:564-675 | searching the registered keys answers every request as indexing a dense table does, unregistered keyrefs below the count being void entries; the response can be sent exactly when the table entry asked for is short enough and its value valid |
| `NodeReplies.WriteTargetIsTableWrite` | crates/qup-embassy/src/lib.rs:621-645 | a WRITE is carried out if and only if the table entry is writable and its type accepts the value; it stores and answers that value |
| `NodeReplies.FramesOverRuns` | crates/qup-embassy/src/lib.rs:828-860 | delivered frames followed by those on the wire are, in order, the frames the server decided to send; a response that does not fit is none of them |
| `Mirror.MirrorConverges` | crates/qup-test-tui/src/network.rs:78-143 | with polls that time out between two frames only: whenever node, channels and worker are idle, the mirrored value of every readable and observable key is the stored one, unless its CHANGED was thrown away with a rejected WRITE and it was not read since, or its generation wrapped all the way round |
| `Mirror.MirrorIsExact` | crates/qup-test-tui/src/network.rs:78-143 | under the same assumption, with neither exception the mirror is exact whenever everything is idle |
| `Mirror.HealthyOverPlays` | crates/qup-test-tui/src/network.rs:207-240 | under the same assumption, in every reachable state each mirrored value and each value still on the wire is current, or a newer one is stored and not yet seen, or a CHANGED frame is behind it, or the keyref is collected, pending or about to be read |
| `Mirror.NodeMoveLinked` | crates/qup-embassy/src/lib.rs:508-561 | every step of the node or a setter keeps that invariant |
| `Mirror.ClientMoveLinked` | crates/qup-test-tui/src/network.rs:145-240 | every step the worker takes by itself keeps it |
| `Mirror.DeliverLinked` | crates/qup-test-tui/src/network.rs:283-372 | every delivered message keeps it |
| `Mirror.ConnectedBegins` | crates/qup-test-tui/src/network.rs:78-143 | a fresh connection is one of the quiet starts the results hold for; so is one on which the keys have been listed |
| `Mirror.NothingDropped` | crates/qup-test-tui/src/network.rs:344-347 | when no ERROR arrives for a WRITE while keyrefs are collected, none is ever lost |
| `Mirror.WorkerNeverSurprised` | crates/qup-test-tui/src/network.rs:112-137 | under the same assumption, the worker gives up if and only if it is told to write a value that cannot be encoded; it never sees an unsolicited reply, and its lists hold no keyref twice |
| `Shown.MirrorMoves` | crates/qup-test-tui/src/app.rs:113-129 | the exact effect of every move on the mirror: a VALUE answering a GET of the key, or a WRITTEN answering a WRITE of it, is shown from its arrival; a key that cannot be read is taken out when its CHANGED is worked off; nothing else changes it |
| `Shown.ShownUntilTheNext` | crates/qup-test-tui/src/app.rs:113-129 | over every play the mirror of a readable key, observable or not, is the value brought last by such a reply |
| `Shown.IdleShowsTheLastAnswer` | crates/qup-test-tui/src/network.rs:158-166 | under the same assumption: at idle every readable key below the count, observable or not, has a mirrored value, it is that of the last VALUE or WRITTEN for the key in the history, and it is the stored one if the key was not set locally since the answer, or for a WRITE since its store |
| `Shown.KnownMove` | crates/qup-test-tui/src/network.rs:304-362 | every move keeps: the mirror is the last answer, or will be once the answer on the wire arrives |
| `Shown.DroppedMoves` | crates/qup-test-tui/src/network.rs:344-347 | exactly the keyrefs collected while a WRITE waited are thrown away with its ERROR, and each until a value for it arrives |
| `Shown.GivesUpOnAnythingElse` | crates/qup-test-tui/src/network.rs:283-372 | any message that is neither CHANGED nor the reply to the outstanding request ends the connection, and no other does |
| `MirrorRaces.WrongAfterRacingSet` | crates/qup-test-tui/src/network.rs:158-166 | a run in which a local set lands between the store of a WRITE and its WRITTEN: nothing is stored behind the WRITTEN, and at idle the mirror of the unobserved key is wrong |
| `Passes.RefreshReadsAll` | crates/qup-test-tui/src/network.rs:181-205 | a refresh asks for every readable key, in order of keyref and for nothing else, and a value arrives for each |
| `Passes.FirstPassAsksAll` | crates/qup-test-tui/src/network.rs:78-97 | the first pass observes every observable key and reads every readable one, key by key and nothing else |
| `Passes.ListensWithNothingPending` | crates/qup-test-tui/src/network.rs:112-121 | the worker listens only with no keyref pending |
| `Passes.CommandsBeforeDrain` | crates/qup-test-tui/src/network.rs:112-143 | between listening and the next drain it looks at its commands |
| `MirrorStale.StuckStays` | crates/qup-test-tui/src/network.rs:344-347 | for every configuration: a wrong mirrored value about which nothing is stored, counted, on the wire, collected or pending stays wrong in every play without a set or WRITE of the key and without a refresh |
| `MirrorStale.DroppedStays` | crates/qup-test-tui/src/network.rs:344-347 | in particular one dropped with a rejected WRITE after the server has seen its update |
| `MirrorStale.IdleWrongStays` | crates/qup-test-tui/src/network.rs:207-240 | an idle mirror is wrong only for a key so dropped or wrapped all the way round, and then stays wrong in every such play |
| `MirrorBytes.BytesConverge` | crates/qup-test-tui/src/network.rs:78-143 | convergence over the bytes of the frames, for plays whose polls time out between two frames |
| `MirrorBytes.BytePlaysArePlays` | crates/qup/src/client.rs:266-306 | such a play of bytes is a play of whole messages |
| `MirrorBytes.PlaysAreBytePlays` | crates/qup/src/client.rs:266-306 | and every play of whole messages is one of bytes |
| `MirrorBytes.StaleAfterTornPoll` | crates/qup/src/client.rs:301-306 | a run in which a poll times out after three of the six bytes of CHANGED(0), and the next one after the other three, ends idle with no byte left and a stale mirror |
| `Polls.DropHarmlessOnlyAtBoundary` | crates/qup/src/client.rs:301-306 | going on after bytes of a frame from the node were dropped still reads its message, whatever follows, if and only if no byte was dropped |
| `Polls.NextMessageInBytes` | crates/qup/src/client.rs:266-298 | in raw bytes, when the bytes that arrived start with a message, which one, and when more are awaited |
| `MirrorBytes.BadBytesEndTheConnection` | crates/qup/src/client.rs:266-298 | bytes that are no frame of a node end the connection |
| `Polls.FramesAreReadBack` | crates/qup/src/client.rs:266-298 | the bytes of any frames a node sends are read back as those frames |
| `Polls.NextOfFrame` | crates/qup/src/client.rs:266-298 | the next message of the bytes of a frame and whatever follows is that frame's |
| `MirrorLimits.StaleAfterWrap` | crates/qup-embassy/src/lib.rs:434 | a run of 2^32 updates between two looks ends idle with a stale mirror |
| `MirrorLimits.StaleAfterRejectedWrite` | crates/qup-test-tui/src/network.rs:344-347 | a run with one CHANGED frame in front of the ERROR for a WRITE ends idle with a stale mirror |
| `Follow.FollowingPrintsTheLatest` | crates/qup-test-cli/src/main.rs:180-202 | once a CHANGED for the followed key was emitted and everything is idle, the value printed last is the stored one, unless the generation wrapped; and the follow loop never meets a frame that ends it |
| `FollowPrints.PrintsAnswerChanges` | crates/qup-test-cli/src/main.rs:180-202 | in every session: what is printed is the values of the VALUE frames taken, in order, one for each GET but the one unanswered; a GET is sent at once for every CHANGED of the key taken after the OK with no GET unanswered, and for nothing else; each value is the one the slot held when the node answered that GET, which was after it reported the key anew |
| `FollowPrints.NothingPrintedBeforeAChange` | crates/qup-test-cli/src/main.rs:184-191 | nothing is printed before a CHANGED of the key was taken |
| `FollowPrints.ExplainedMove` | crates/qup-test-cli/src/main.rs:184-191 | every move keeps what these are read off |
| `FollowPrints.QuitsOnAnythingElse` | crates/qup-test-cli/src/main.rs:192-200 | any other message than the awaited one and CHANGED ends follow mode |
| `Follow.HealthyOverSessions` | crates/qup/src/client.rs:460-468 | discarding CHANGED frames while a VALUE is awaited is harmless in every reachable state: what is printed, or will be, is covered by a later frame or is current |
| `Follow.TakenPrintCovered` | crates/qup-test-cli/src/main.rs:184-191 | taking one frame off the wire keeps the printed value covered, whether it is printed, discarded or answered with a GET |
| `NextWaiter.ReturnsTheStoredValue` | crates/qup-embassy/src/lib.rs:373-382 | over every history from a new key: a call that returns has met an update counted since it began, and returns the value put last, or the initial one; no update counted so far has a later store |
| `NextWaiter.RousedOncePerSignal` | crates/qup-embassy/src/lib.rs:376-381 | a waiter is never roused more often than a task has signalled |
| `NextWaiter.BlockedOnlyOnWrap` | crates/qup-embassy/src/lib.rs:433-435 | a waiter stays blocked, with no signal set or about to be set, only if the number of updates counted since its call is a multiple of 2^32 |
| `NextWaiter.ReturnsExactlyOffWrap` | crates/qup-embassy/src/lib.rs:376-381 | in every reachable state a waiter inside its call can return without a further update if and only if the number it has missed is not a multiple of 2^32 |
| `NextWaiter.WrapKeepsWaiting` | crates/qup-embassy/src/lib.rs:376-381 | with a multiple of 2^32 missed, every history without a further update leaves it waiting |
| `NextWaiter.NeverStuck` | crates/qup-embassy/src/lib.rs:376-381 | otherwise it is at most four steps from returning, whatever stale signals it has consumed, and needs no new update |
| `NextWaiter.AWholeWrapIsMissed` | crates/qup-embassy/src/lib.rs:434 | exactly 2^32 updates during one call do leave it blocked |
| `NextWaiter.OkOverHistories` | crates/qup-embassy/src/lib.rs:351-382 | the invariant of waiter and setters behind these, over every interleaving |
| `Turns.RequestRuns` | crates/qup-embassy/src/lib.rs:519-537 | answering a request whose response fits, and flushing, uninterrupted, is a run of the small steps, with these slots, frames and notifier |
| `Turns.RefusalRuns` | crates/qup-embassy/src/lib.rs:837-839 | a response that does not fit is a run that stops with nothing sent and nothing changed |
| `Turns.FlushLeavesNothingDue` | crates/qup-embassy/src/lib.rs:677-708 | a flush leaves nothing due |
| `Turns.SpuriousFlush` | crates/qup-embassy/src/lib.rs:538-546 | and a flush with nothing due sends and changes nothing |
| `Turns.NotificationRuns` | crates/qup-embassy/src/lib.rs:538-546 | so is waking up for a notification and flushing |
| `Turns.FlushReportsExactlyTheDue` | crates/qup-embassy/src/lib.rs:677-708 | a flush sends CHANGED once for each key that is due and for no other, leaves nothing due, and touches no slot in front of where it starts |
| `Turns.BoundedMemoryIsFaithful` | crates/qup-embassy/src/lib.rs:1435-1438 | with a string buffer as long as the longest string of any key, forgetting the text of a longer string changes neither the reply nor the key state |
| `ServerLoop.Server.HandleRequest` | crates/qup-embassy/src/lib.rs:564-675 | sends exactly the one frame of the response, or nothing when that response does not fit a frame; keys, observation record and notifier move as the node model says |
| `ServerLoop.Server.FlushNotifications` | crates/qup-embassy/src/lib.rs:677-708 | sends the CHANGED frames of the due keys in registry order and marks them seen |
| `ServerLoop.Server.FlushOne` | crates/qup-embassy/src/lib.rs:691-705 | one key of a flush: due if and only if observed, observable and changed since the last look |
| `ServerLoop.Server.AnswerWrite` | crates/qup-embassy/src/lib.rs:621-645 | a WRITE is stored and answered, or refused with the right code and nothing changed |
| `ServerLoop.Server.AnswerGet` | crates/qup-embassy/src/lib.rs:602-620 | a GET is answered with the stored value or the right error code |
| `ServerLoop.Server.AnswerGetKey` | crates/qup-embassy/src/lib.rs:593-601 | a GETKEY is answered with the entry, the void entry or the error |
| `ServerLoop.Server.AnswerObserve` | crates/qup-embassy/src/lib.rs:646-660 | an OBSERVE records the key as observed and seen up to now, or is refused |
| `ServerLoop.Server.AnswerUnobserve` | crates/qup-embassy/src/lib.rs:661-671 | an UNOBSERVE clears the record of a registered key and succeeds below the count |
| `ServerLoop.Server.AnswerFixed` | crates/qup-embassy/src/lib.rs:577-592 | PING, IDENTIFY, GETCAPS and GETKEYTABLEN answer from the configuration alone |
| `ServerLoop.Server.Find` | crates/qup-embassy/src/lib.rs:1203-1205 | finds the first registered key with the keyref |
| `ServerLoop.Server.Count` | crates/qup-embassy/src/lib.rs:1219-1223 | of the keys' own keyrefs: 0 without keys; otherwise some keyref plus one, or 65535 for keyref 65535, and every keyref is below it or is 65535 |
| `NodeAnswers.KeyCountIsTheCount` | crates/qup-embassy/src/lib.rs:1219-1223 | the advertised count is 0 without keys and otherwise one more than the largest keyref, but never above 65535 |
| `NodeAnswers.BelowCountIsInRange` | crates/qup-embassy/src/lib.rs:1219-1223 | a keyref is below the count if and only if it is not 65535 and some registered keyref is at least as large |
| `NodeAnswers.BeyondAllIsUnknown` | crates/qup-embassy/src/lib.rs:593-675 | GETKEY, GET, WRITE, OBSERVE and UNOBSERVE of a keyref above all registered ones are answered with ERROR 1 and change nothing |
| `NodeAnswers.OutOfRangeIsUnknown` | crates/qup-embassy/src/lib.rs:593-675 | ERROR 1 is the answer if and only if the keyref is out of that range |
| `NodeAnswers.VoidAnswers` | crates/qup-embassy/src/lib.rs:593-675 | an unregistered keyref in range: GETKEY gives a key without flags and name, UNOBSERVE succeeds, GET, WRITE and OBSERVE are answered with ERROR 2 |
| `NodeAnswers.KeyAnswers` | crates/qup-embassy/src/lib.rs:593-675 | a registered key: its name and permission bits, its value, OK, WRITTEN with the value, or ERROR 2 without the permission and ERROR 3 for a value its type does not accept; and which slot each request writes or switches |
| `NodeAnswers.FlagsAreThePermissions` | crates/qup-core/src/types/scalar.rs:20-28 | bit 0 of the keyflags is readable, bit 1 writable, bit 2 observable, and no other bit is set |
| `NodeAnswers.FixedAnswers` | crates/qup-embassy/src/lib.rs:577-592 | the answers to PING, IDENTIFY, GETKEYTABLEN and GETCAPS, the capabilities as the characters PkIiCcSsGgWwNkUk with ! exactly when some key is observable |
| `NodeAnswers.AnswersAsAdvertised` | crates/qup-embassy/src/lib.rs:1189-1195 | every request but GETCAPS is answered with ERROR or with the response its advertised pair names |
| `NodeAnswers.AdvertisesOnlyRequests` | crates/qup-embassy/src/lib.rs:1189-1195 | and each of the eight advertised pairs is that of a request |
| `ServerLoop.Server.AttachNotifiers` | crates/qup-embassy/src/lib.rs:1197-1201 | every observable key is attached to this server and no other key is |
| `ServerLoop.OwnCapsAreCaps` | crates/qup-embassy/src/lib.rs:1189-1195 | the advertised string is one the capability grammar accepts, and carries the change marker if and only if a key is observable |
| `ServerLoop.EncodableExactlyWhenItFits` | crates/qup-embassy/src/lib.rs:721-815 | a response can be encoded if and only if its string fits the frame: 65533 bytes for a node id, 65532 for a key name or a value, and the value has no NUL byte |
| `ServerLoop.Sizes` | crates/qup-embassy/src/lib.rs:1431-1447 | the response buffer fits every encoding of every key and is no larger than the largest needs |
| `ServerLoop.StringSize` | crates/qup-embassy/src/lib.rs:1435-1438 | the string buffer is exactly the longest string of any key |
| `ServerLoop.MaxUsize` | crates/qup-embassy/src/lib.rs:1331-1341 | the maximum of a list, or 0 |
| `ServerLoop.AnyObservable` | crates/qup-embassy/src/lib.rs:1355-1364 | true if and only if some key is observable |
| `ServerLoop.Launch` | crates/qup-embassy/src/lib.rs:1427-1460 | starts if and only if the node id is a wire string of at most 65535 bytes; nothing is observed and no key value or generation changes |
| `ServerLoop.ValidateNodeId` | crates/qup-embassy/src/lib.rs:1495-1505 | accepts exactly the NUL-free node ids of at most 65535 bytes |
| `Sending.SendFrame` | crates/qup-embassy/src/lib.rs:828-860 | appends one whole frame, or refuses a payload over 65535 bytes with nothing written |
| `Sending.SendStr16Response` | crates/qup-embassy/src/lib.rs:721-763 | appends the one encoding of the string response exactly when the string has at most 65533 bytes |
| `Sending.SendKeyResponse` | crates/qup-embassy/src/lib.rs:765-815 | appends the one encoding of the key response exactly when the name has at most 65532 bytes |
| `Sending.SendVoidKeyResponse` | crates/qup-embassy/src/lib.rs:817-826 | appends the encoding of a key with no flags and no name |
| `Serving.Serve` | crates/qup-embassy/src/lib.rs:493-562 | over a whole connection without concurrent setters, and whenever the notifier wakes the server between two requests, the bytes written are the encodings of the responses and notifications for the requests the byte stream encodes, in order; it ends with an internal error if and only if some response does not fit its frame, and never when the texts are short enough, and otherwise with a protocol error exactly when what is left behind the requests is refused; keys and observation record are then those behind the last request |
| `Serving.WakeUp` | crates/qup-embassy/src/lib.rs:538-546 | being woken with nothing due takes the signal and sends nothing |
| `WakeUps.BoundaryWakeUpsAreHarmless` | crates/qup-embassy/src/lib.rs:515-518 | under every schedule of reads and wake-ups at frame boundaries the server sends what it sends for the requests read |
| `WakeUps.WriteThenThreeBytes` | crates/qup-embassy/src/lib.rs:515-518 | for every configuration: an accepted WRITE of an observable key raises the notifier by itself, and when the first three bytes of a PING have arrived behind it the reader can be dropped with them; the PING is then never answered |
| `WakeUps.APingIsLost` | crates/qup-embassy/src/lib.rs:515-518 | such a run exists |
| `Serving.ServeRequest` | crates/qup-embassy/src/lib.rs:519-537 | one turn of the loop in bytes |
| `Serving.TalkIsARun` | crates/qup-embassy/src/lib.rs:513-561 | what the loop sends is what a run of the small steps sends, so all results about runs apply to it |
| `Serving.WrittenAlwaysFits` | crates/qup-embassy/src/lib.rs:631-635 | the answer to an accepted WRITE that came in a frame always fits a frame |
| `Keys.Key.TrySet` | crates/qup-embassy/src/lib.rs:351-364 | stores and counts a value that validates; a refused one leaves value, generation and signals as they were, and the error says whether it has a NUL byte or is too long; the result says whether the value differs |
| `Keys.Key.WriteAndEncode` | crates/qup-embassy/src/lib.rs:402-418 | succeeds if and only if the type accepts the value, then stores it, counts it and answers with its encoding; otherwise changes nothing, the buffer included |
| `Keys.Key.EncodeCurrentValue` | crates/qup-embassy/src/lib.rs:397-400 | encodes the stored value if and only if it validates |
| `Keys.Key.NotifyChanged` | crates/qup-embassy/src/lib.rs:433-445 | adds one to the generation modulo 2^32 and raises the change signal, and the server signal of an observable key |
| `Keys.Key.AttachNotifier` | crates/qup-embassy/src/lib.rs:424-431 | attaches observable keys only |
| `Keys.Key.constructor` | crates/qup-embassy/src/lib.rs:300-325 | a new key holds its initial value at generation 0, unattached |
| `Values.DecodedIsStorable` | crates/qup-embassy/src/lib.rs:266-279 | a decoded value passes validation and its wire value is the one that came in |
| `Values.AcceptsExactly` | crates/qup-embassy/src/lib.rs:204-279 | a boolean key accepts booleans, an integer key integers, a string key strings up to its capacity, an enum key its wire names, and none an oversized string; the value is the one that came in |
| `Values.AcceptedIsEchoed` | crates/qup-embassy/src/lib.rs:402-418 | a WRITE is accepted if and only if decoding succeeds, and the stored value is the one written |
| `Values.TypedRoundTrip` | crates/qup-embassy/src/lib.rs:204-279 | every value of every key type survives encoding to the wire and decoding back |
| `Values.ShrinkingIsFaithful` | crates/qup-embassy/src/lib.rs:266-279 | decoding gives the same result when strings beyond the longest the type can hold are replaced by the oversized marker |
| `Values.FramedExactlyUpTo65532` | crates/qup-embassy/src/lib.rs:244-264 | a validated value fits a frame payload if and only if its string has at most 65532 bytes; no encoding exceeds the declared maximum |
| `Values.EncodeInto` | crates/qup-embassy/src/lib.rs:200-279 | writes exactly the value encoding to the front of the buffer, or fails on an invalid string and writes nothing |
| `Values.BuildEnumTable` | crates/qup-embassy-proc/src/lib.rs:38-84 | accepts exactly the lists of valid, distinct wire names with at most one marked default; yields the names, their maximum length and the default |
| `Values.CheckNames` | crates/qup-embassy-proc/src/lib.rs:130-156 | accepts exactly the valid and distinct names and finds the longest |
| `Values.PickDefault` | crates/qup-embassy-proc/src/lib.rs:53-69 | the marked variant, or the first |
| `Values.ValidateWireName` | crates/qup-embassy-proc/src/lib.rs:206-227 | accepts exactly the non-empty NUL-free names of at most 65535 bytes |
| `Values.LongestName` | crates/qup-embassy-proc/src/lib.rs:71-75 | an upper bound on the lengths that is attained |
| `RequestReader.ReadRequest` | crates/qup-embassy/src/lib.rs:862-960 | on every byte stream: succeeds exactly when the batch parser accepts the leading frame from a client, with the same request, and consumes the whole frame on every outcome past opcode validation; a refusal reports the opcode, or else the checksum with the sum of the bytes, or else the first wrong length, or else the value's fault |
| `RequestReader.ReadWriteRequest` | crates/qup-embassy/src/lib.rs:1020-1187 | the same for WRITE, in every branch |
| `RequestReader.ReadEmptyRequest` | crates/qup-embassy/src/lib.rs:962-988 | the same for requests without payload |
| `RequestReader.ReadKeyrefRequest` | crates/qup-embassy/src/lib.rs:990-1018 | the same for requests with a keyref |
| `RequestReader.ReadShortString` | crates/qup-embassy/src/lib.rs:1142-1150 | the same for a string that fits the buffer |
| `RequestReader.ReadLongString` | crates/qup-embassy/src/lib.rs:1151-1177 | the same for a string that does not, of which only the verdict is kept |
| `RequestReader.ScanLongString` | crates/qup-embassy/src/lib.rs:1152-1172 | consumes and sums the whole string and accepts it exactly when it is a wire string |
| `RequestReader.DiscardExact` | crates/qup-embassy/src/lib.rs:1544-1563 | consumes and sums exactly the given number of bytes |
| `RequestReader.FinishChecksum` | crates/qup-embassy/src/lib.rs:1565-1581 | accepts exactly the checksum byte that makes the frame sum zero |
| `RequestReader.ReadExactTracked` | crates/qup-embassy/src/lib.rs:1531-1542 | reads and sums exactly the given number of bytes |
| `RequestBytes.NextRequestInBytes` | crates/qup-embassy/src/lib.rs:862-960 | a stream starts with a request if and only if it starts with a frame that carries it in raw bytes: declared length, sum a multiple of 256, and the first byte, keyref and value of that request |
| `RequestBytes.NoRequestInBytes` | crates/qup-embassy/src/lib.rs:862-960 | without one: more bytes are awaited exactly when fewer than three are there, or the opcode is a client's and the frame is not complete; a refusal consumes the frame, or the three header bytes when the opcode is not a client's |
| `RequestBytes.FirstByteDecides` | crates/qup-embassy/src/lib.rs:936-959 | the first byte decides which of the nine requests is read, and the fourth and fifth are the keyref |
| `RequestBytes.WriteInBytes` | crates/qup-embassy/src/lib.rs:1020-1187 | the sixth byte of a WRITE is the kind of its value; the flag, the two's complement number or the text are the bytes that follow, and a text is kept exactly when it fits the buffer |
| `ServedBytes.ObserveFrameObserves` | crates/qup-embassy/src/lib.rs:646-660 | serving a frame whose first byte is 0x4E, for an observable key below the count, leaves that slot observed and sends 6B 00 00 95 first |
| `ServedBytes.UnobserveFrameForgets` | crates/qup-embassy/src/lib.rs:661-671 | serving one whose first byte is 0x55 leaves it unobserved, with the same answer |
| `ServedBytes.OtherFramesKeepObservation` | crates/qup-embassy/src/lib.rs:564-675 | no other frame changes what is observed of a key |
| `ServedBytes.ServerObserves` | crates/qup-embassy/src/lib.rs:646-671 | the same of the record in the server object |
| `ServedBytes.LastFrameDecides` | crates/qup-embassy/src/lib.rs:493-562 | behind a whole connection an observable key is observed exactly as the last frame says that starts with 0x4E or 0x55 and names it in its fourth and fifth byte |
| `ServedBytes.WriteFrameStores` | crates/qup-embassy/src/lib.rs:621-645 | serving a WRITE frame for a writable key that accepts it stores the value whose bytes it carries, and answers with that value |
| `ServedBytes.TurnMovesSlot` | crates/qup-embassy/src/lib.rs:564-675 | a turn moves value and count of a key only by an accepted WRITE of it, and its observation only by OBSERVE and UNOBSERVE of it |
| `Requests.PipelineSplits` | crates/qup-embassy/src/lib.rs:862-960 | a concatenation of encoded requests is read back as exactly those requests |
| `Requests.RestartHarmlessOnlyAtBoundary` | crates/qup-embassy/src/lib.rs:515-518 | dropping a half-read request loses nothing if and only if no byte of it was consumed: for every other number of bytes a request is given that is lost |
| `Requests.ReadRequestsAreFramed` | crates/qup-embassy/src/lib.rs:1020-1187 | the string of a WRITE that was read has at most 65530 bytes |
| `Requests.NextOfCompleteFrame` | crates/qup-core/src/parser/frame.rs:9-48 | with a valid request opcode, acceptance is the checksum and the payload |
| `Utf8.AcceptsExactlyTheGrammar` | crates/qup-embassy/src/lib.rs:1492 | the validity function accepts exactly the UTF8-octets of section 4 of RFC 3629 |
| `CodePoints.CharsAreScalarValues` | crates/qup-embassy/src/lib.rs:1492 | a byte string is a character if and only if it is the encoding of a Unicode scalar value, computed from the code point; two scalar values never share an encoding |
| `CodePoints.ValidExactlyWhenText` | crates/qup-embassy/src/lib.rs:1492 | a string is accepted if and only if it is the concatenation of such encodings |
| `CodePoints.ReportsTheLongestPiece` | crates/qup-embassy/src/lib.rs:1638-1647 | the reported position is behind the valid front, where no character starts; the error length is missing exactly when the rest begins a character, and otherwise is that of the longest beginning of one, or 1 |
| `Utf8.UnfinishedIsProperPrefix` | crates/qup-embassy/src/lib.rs:1638-1647 | a tail is unfinished if and only if it is a proper prefix of a character |
| `Utf8.DropValidFront` | crates/qup-embassy/src/lib.rs:1623-1650 | a valid front only shifts the verdict on what follows |
| `Utf8.CarryOver` | crates/qup-embassy/src/lib.rs:1623-1650 | the verdict on everything fed is the shifted verdict on tail and chunk |
| `Utf8Stream.Utf8StreamValidator.Feed` | crates/qup-embassy/src/lib.rs:1623-1650 | accepts a chunk exactly when what was fed so far can still become a wire string; the carried tail has at most three bytes and no copy overruns |
| `Utf8Stream.Utf8StreamValidator.Finish` | crates/qup-embassy/src/lib.rs:1652-1661 | accepts exactly the wire strings; the accepting branch for a carried tail is never taken |
| `Utf8Stream.CheckInChunks` | crates/qup-embassy/src/lib.rs:1152-1172 | for every cut into chunks of at most 64 bytes, accepts exactly the NUL-free strings valid under section 4 of RFC 3629 |
| `Utf8Stream.WireStringsFollowTheGrammar` | crates/qup-embassy/src/lib.rs:1487-1493 | the whole-string check accepts the same set |
| `Utf8Stream.NotExtendableIsFinal` | crates/qup-embassy/src/lib.rs:1152-1172 | an error is final: no continuation makes a wire string |
| `WireForm.ReceivesExactlyTheFormat` | crates/qup-core/src/types/message.rs:132-288 | a byte string is received as a message if and only if it is the frame written out in raw bytes: opcode, big-endian length, payload fields and tags, and a sum that is a multiple of 256; requests from the client, all else from the node |
| `WireForm.DecodesExactlyTheFormat` | crates/qup-core/src/types/message.rs:132-288 | the same for the payload |
| `WireForm.SendsTheFormat` | crates/qup/src/client.rs:488-498 | what is sent for a message is that frame |
| `WireForm.OpcodeVerdict` | crates/qup-core/src/types/opcode.rs:182-206 | the nine opcode bytes of each side, and for every other byte and direction the error it is refused with |
| `WireForm.FrameVerdict` | crates/qup-core/src/parser/frame.rs:9-48 | which fault of a frame is reported: too short, then length, then checksum with the sum of the bytes, then opcode |
| `WireForm.RefusesTheFirstFault` | crates/qup-core/src/types/message.rs:132-288 | which fault of a payload is reported, for every opcode |
| `WireForm.ReadVerdict` | crates/qup-core/src/io/sync.rs:50-108 | reading a frame fails in the transport exactly when bytes are missing, and for the buffer exactly when the declared length is larger |
| `WireForm.SumIsTotalModulo256` | crates/qup-core/src/parser/checksum.rs:7-14 | the wrapping sum is the integer sum modulo 256 |
| `WireForm.ChecksumInNumbers` | crates/qup-core/src/parser/checksum.rs:17-31 | opcode, both length bytes, payload and checksum add up to a multiple of 256; of an overlong payload the low 16 bits of the length count |
| `WireForm.SignedIsI64` | crates/qup-core/src/types/cursor.rs:71-73 | the integer is the sum of the eight bytes, each times its power of 256, the first one signed |
| `Frames.MessageSurvives` | crates/qup/src/client.rs:488-498 | every encodable message survives encoding, parsing and decoding unchanged |
| `Frames.FrameIsCanonical` | crates/qup-core/src/types/message.rs:132-158 | every frame that parses and decodes is the one encoding of its message, checksum included |
| `Frames.ParseAcceptsExactlyBuilt` | crates/qup-core/src/parser/frame.rs:9-48 | parsing accepts exactly the frames built from an opcode of the direction and a payload |
| `Frames.OneByteErrorIsCaught` | crates/qup-core/src/parser/frame.rs:22-34 | changing any one byte of an accepted frame gets it rejected |
| `Frames.ReadFrame` | crates/qup-core/src/io/sync.rs:50-108 | reading a frame piecewise returns the same view or the same error as parsing the complete slice, the reported sum and the order of checks included |
| `Frames.JudgeFrame` | crates/qup-core/src/io/sync.rs:90-107 | the checks on the pieces are those on the whole frame |
| `Frames.BuildFrame` | crates/qup/src/client.rs:488-498 | builds the one frame of an opcode and payload, exactly when the payload fits |
| `Frames.WriteFrame` | crates/qup/src/client.rs:258-263 | a WRITE goes out exactly when it is encodable, as its one encoding |
| `Frames.PayloadWriter.PushValue` | crates/qup/src/client.rs:534-551 | appends the value encoding exactly when the string is NUL-free and fits its length field |
| `Frames.PayloadWriter.PushStr16` | crates/qup/src/client.rs:553-567 | appends the string encoding under the same condition, or appends nothing |
| `Messages.DecodeInvertsEncode` | crates/qup-core/src/types/message.rs:132-158 | decoding a message payload gives the message back |
| `Messages.EncodeInvertsDecode` | crates/qup-core/src/types/message.rs:132-158 | a decoded payload is the encoding of its message, byte for byte |
| `Decoder.Decode` | crates/qup-core/src/types/message.rs:132-288 | the cursor-driven decoder returns what the reference decoder does, error included |
| `Decoder.DecodesExactlyEncodings` | crates/qup-core/src/types/message.rs:132-288 | it accepts exactly the payloads of encodable messages with that opcode |
| `Decoder.DecodeWrite` | crates/qup-core/src/types/message.rs:205-212 | the WRITE payload, against the reference |
| `Decoder.DecodeKey` | crates/qup-core/src/types/message.rs:235-245 | the KEY payload, against the reference |
| `Decoder.DecodeValueResponse` | crates/qup-core/src/types/message.rs:247-258 | the VALUE and WRITTEN payloads, against the reference |
| `Decoder.DecodeIdentified` | crates/qup-core/src/types/message.rs:214-222 | the IDENTIFIED payload, against the reference |
| `Decoder.DecodeCaps` | crates/qup-core/src/types/message.rs:260-266 | the CAPS payload, against the reference |
| `Decoder.PayloadCursor.ReadStr16` | crates/qup-core/src/types/cursor.rs:87-96 | takes a length-prefixed string off the front, or fails as the reference does |
| `Decoder.PayloadCursor.ReadValue` | crates/qup-core/src/types/value.rs:63-70 | takes a tagged value off the front, or fails as the reference does |
| `Decoder.PayloadCursor.Take` | crates/qup-core/src/types/cursor.rs:98-107 | takes exactly the given bytes off the front, or fails |
| `Decoder.PayloadCursor.ReadI64` | crates/qup-core/src/types/cursor.rs:71-73 | takes a big-endian two's complement integer off the front |
| `Bytes.I64RoundTrip` | crates/qup-core/src/types/cursor.rs:71-73 | eight big-endian bytes give the integer back, the sign included |
| `Bytes.I64Unique` | crates/qup-core/src/types/cursor.rs:71-73 | and no other eight bytes do |
| `Opcodes.Validate` | crates/qup-core/src/types/opcode.rs:182-206 | accepts exactly the defined opcodes of the direction |
| `Checksum.OnlyChecksumSumsToZero` | crates/qup-core/src/parser/checksum.rs:17-31 | the checksum is the only last byte that makes the frame sum zero |
| `Checksum.OneByteChangesSum` | crates/qup-core/src/parser/checksum.rs:7-14 | a single changed byte always changes the sum |
| `Checksum.FrameSumOf` | crates/qup-core/src/parser/checksum.rs:7-14 | the loop computes the wrapping sum |
| `Checksum.ComputeChecksum` | crates/qup-core/src/parser/checksum.rs:17-31 | the batch form computes the checksum byte, and the frame sums to zero with it |
| `Checksum.ComputeSegmentedChecksum` | crates/qup-embassy/src/lib.rs:1511-1529 | the segmented form computes the same byte for every split |
| `Checksum.FrameSum.AddSlice` | crates/qup-embassy/src/lib.rs:1595-1599 | the incremental form continues the same sum |
| `Checksum.FrameSum.constructor` | crates/qup-embassy/src/lib.rs:1586-1589 | starting from the header |
| `Caps.CapsIsTheGrammar` | crates/qup-core/src/types/caps.rs:53-117 | acceptance by position is the grammar of pairs and optional marker, and rendering the pairs gives the raw string back |
| `Caps.CapsInBytes` | crates/qup-core/src/types/caps.rs:53-117 | acceptance in raw bytes: upper-case and lower-case letter in turn, the eight known requests with their one response, equal requests with equal responses, and a last byte 0x21 exactly when the length is odd |
| `Caps.PairVerdict` | crates/qup-core/src/types/caps.rs:157-174 | which pairs are accepted, and which requests the iteration marks as known, in raw bytes |
| `Caps.Parse` | crates/qup-core/src/types/caps.rs:53-117 | the loop with its table of 26 remembered responses accepts exactly that language and reports the marker |
| `Caps.CapsAreAscii` | crates/qup-core/src/types/caps.rs:54-56 | every accepted string is ASCII |
| `Caps.PairsOfRender` | crates/qup-core/src/types/caps.rs:157-174 | the pairs of a rendered list are the list |
| `Caps.Collect` | crates/qup-core/src/types/caps.rs:157-174 | iterating an accepted value yields exactly its pairs, and they render to the raw string |
| `Caps.CapsIter.Next` | crates/qup-core/src/types/caps.rs:157-174 | one step of the iteration yields the next pair, or the end |
| `Caps.CheckPair` | crates/qup-core/src/types/caps.rs:53-117 | a known request must carry its defined response |
| `Worker.MergeKeepsDistinct` | crates/qup-test-tui/src/network.rs:364-374 | merging keeps the list duplicate-free and holds exactly the keyrefs of both lists |
| `Worker.MergeKeepsOrder` | crates/qup-test-tui/src/network.rs:364-374 | and keeps the old list in front, the new keyrefs behind it in the order of their first arrival |
| `Worker.EnqueueChangedKeys` | crates/qup-test-tui/src/network.rs:364-368 | the loop computes that merge |
| `Worker.EnqueueChangedKey` | crates/qup-test-tui/src/network.rs:370-374 | adds a keyref that is absent and leaves the list alone otherwise, keeping it duplicate-free |
| `WorkerLoop.Connection.DrainChangedKeys` | crates/qup-test-tui/src/network.rs:207-240 | ends on every stream with finitely many CHANGED frames left, does what the worker state machine does with that stream, leaves nothing pending, and every CHANGED frame it met for a re-read key is followed by a GET of it |
| `WorkerLoop.Connection.DrainOne` | crates/qup-test-tui/src/network.rs:213-236 | one turn of it: fewer CHANGED frames are left, or as many and the list is shorter |
| `WorkerLoop.Connection.Collect` | crates/qup-test-tui/src/network.rs:304-325 | collects the keyrefs in front of the first reply, each once, in order of arrival |
| `WorkerLoop.Connection.ReadKey` | crates/qup-test-tui/src/network.rs:250-259 | ends well exactly when a VALUE is the first reply, which is then shown and nothing else changed in the mirror; a read does to pending list and mirror what the state machine does |
| `WorkerLoop.Connection.WriteKey` | crates/qup-test-tui/src/network.rs:327-362 | the value of a WRITTEN is shown; an ERROR leaves mirror and pending list alone and throws the collected keyrefs away; any other reply ends the connection; so does the state machine |
| `WorkerLoop.Connection.ObserveKey` | crates/qup-test-tui/src/network.rs:242-248 | ends well exactly when OK is the first reply; the mirror is left alone and the pending list moves as in the state machine |
| `WorkerLoop.FedAnswer` | crates/qup-test-tui/src/network.rs:304-325 | waiting for a reply is feeding the state machine one message at a time |
| `WorkerLoop.FollowedTurn` | crates/qup-test-tui/src/network.rs:207-240 | a turn of the drain leaves no CHANGED frame without a later read or a pending keyref |
| `WorkerLoop.AnsweredDrains` | crates/qup-test-tui/src/network.rs:207-240 | the measure by which the drain ends |

## Left out

- Terminal drawing, input handling, the modal, and the command line's parsing, printing and REPL: the mirror is a map from keyref to value.
- TCP, tasks, timers, heartbeat intervals, retry delays and request timeouts: a heartbeat may happen whenever the worker polls, and a poll may time out whenever no whole frame has arrived; a request that times out ends the connection and is not a step.
- Transport write errors: the sink takes every byte. Transport read errors are the end of the byte stream.
- The internals of the one-bit signal, of mutexes and of atomics' memory orderings, and the raw notifier pointer: these are single steps on booleans, values and counters.
- The qup-test-node crate: its broadcast checks an observe bit and then sends, so the ordering results here do not hold for it.
- The asynchronous frame reader: the same checks as the synchronous one with awaits in between.
- Macro token generation, identifier naming, and log or display formatting: only the table of wire names is kept.
- Key enumeration and name resolution by the clients: the worker starts with the keyrefs below the count and their permissions, the follow loop with its keyref resolved on a quiet connection.
- The worker's command queue and its loop over all rows for a refresh are steps of the state machine in `Worker`, not loops in `WorkerLoop`.
- `Key::wait_for` as a liveness claim: an update between one `next` returning and the next noting the generation can be missed.
- Liveness: the results are about every reachable state and about states at rest; no scheduler is assumed.
- More than one waiter in `next` for a key: the one-bit signal serves one.
- Setters that run while `Serving.Serve` is under way: interleavings are the subject of `Node`, where every step of the server is one of a run.
- RequestReader.ReadRequest: of a text longer than the buffer it states which kinds of fault can be reported, not which one when it has both a NUL byte and a broken character, nor the position, which the streaming check counts from the piece it holds.
- Frames larger than the caller's buffer are refused by the synchronous reader before their payload is read; what the transport then holds is not followed further.
