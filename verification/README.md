# Sonotxt, verified

This project models the parts of Sonotxt whose correctness depends on loops, counters and
interleavings, and proves properties of them. Sonotxt is a text-to-speech service: an API server
bills its users in TXT, hands work to a pool of workers, and speaks to some of them over an
encrypted QUIC transport.

`dafny verify dfyconfig.toml` checks everything.

## What is modelled

Objects that the program updates in place are classes, and each of their methods is proved against a
function of the state before the call; loops are loops. What happens when several tasks interleave is
modelled as a state machine over values, one atomic statement (an SQL statement, a Redis command, an
atomic instruction, a send or a receive) per step, and the properties are proved for every run.
Clocks, random draws and the outcomes of calls to the outside are parameters.

**The encrypted transport.** `noise_codec.dfy` is the chunked codec and its two implicit nonces,
`noise.dfy` the client and the multi-session server, `attestation.dfy` the connection set-up,
`framing.dfy` the length-prefixed messages, `quic_worker.dfy` the worker's stream handler and the
client's calls, one stream at a time, and `session.dfy` the request protocol: any number of
clients, sessions and streams in any interleaving, with lost streams, callers that stop waiting, and job
notifications.
`session_blocked.dfy` is about messages that are never opened and what they block. What these two
assume of the texts on the wire, `some_wire.dfy` shows to be met, and an exchange to complete on it. The
cipher is a concrete stand-in whose tag names the key and the nonce; JSON is a writer with a reader
that undoes it. Limits and nonce rules follow the Noise Protocol Framework, revision 34, section 3
(65535-byte messages) and section 5.1 (a failed decryption does not advance the nonce; nonce 2^64-1
is reserved); the handshake pattern is the NK pattern of section 7.5.

**Payment channels.** `channel_events.dfy` compares a poll, which applies a window of chain events
kind by kind, with a replay in chain order, and gives the exact condition under which the two agree.
`sono.dfy` is the service with its channel map; `poll_runs.dfy` and `first_poll.dfy` are about runs of
polls, failed ones included, and `poll_meaning.dfy` says what a poll and a sync come to in terms of the chain's
own events. `channel_life.dfy` follows one user's channel lock by lock, charges and
each single log of a poll, and `signed_states.dfy` the states of it that may be signed.

**Billing.** `billing.dfy` is the TXT balances: charges split between balance and channel, credits,
withdrawals that are given back. `format_txt.dfy` is the printer of amounts, read back by an
independent reader.

**Dispatch.** `dispatch.dfy` is the choice of a worker, `dispatch_runs.dfy` dispatches that come between
each other's readings and increments, `in_flight.dfy` the in-flight counters under
cancellation, `worker_pool.dfy` the pool and its retry loop, `job_queue.dfy` the priority queue, and
`tts_route.dfy` the request that creates a job, across billing, free tier and queue.

**Limiters, the event stream, and deposits.** `rate_limiter.dfy` is the limiter and its Redis commands,
`rate_limiter_runs.dfy` attempts that come between each other's commands; `free_tier.dfy`; `sse.dfy`, the
splitter of a stream of events, which handles a subset of section 9.2.5 of the WHATWG HTML Standard, over
`utf8.dfy`, the lossy decoding of its chunks (section 3.9 of the Unicode Standard); and `deposits.dfy`.

## What turned out not to hold

Where a property one would expect fails, the project states exactly when it holds.

- A blob is decrypted to the whole plaintext exactly when its chunk count fits 32 bits
  (`NoiseCodec.RoundTripExactly`), a frame exactly when its text is shorter than 2^32 bytes
  (`Framing.DecodeOfEncode`): both lengths are cast to `u32`. A request or response whose message does not
  fit a frame is sealed and never opened (`SessionBlocked.OversizedRequestIsDead`,
  `SessionBlocked.OversizedResponseIsDead`).
- A job notification is encrypted by the client and dropped undecrypted by the worker. Whatever else is
  in flight, no request sent after one, or after a call that broke off before it was opened, is ever
  opened (`SessionBlocked.BlockedForever`). A call given up, by a timeout say, is answered all the same, and
  no response sealed after that answer is ever opened (`SessionBlocked.GivenUpGoesDead`,
  `SessionBlocked.GivenUpBlocks`). A connection with nonces left can complete a further exchange exactly if
  it has no such message in either direction (`SessionBlocked.AliveExactlyIfNothingDead`).
- The binding of an attestation is over quote and key put together. A bundle that splits them elsewhere
  is accepted (`Attestation.ResplitIsAccepted`), though it leads to no session
  (`Attestation.OnlyTheOwnBundleConnects`).
- A poll gives the chain-order result exactly when no user reopens a channel after its settlement in
  one window and no opening follows the last top-up with another amount
  (`ChannelEvents.RegroupingIsSound`). Covering an opening forgets what was charged before
  (`PollRuns.CoveringAnOpeningForgetsCharges`).
- Failed polls before the first successful one can lose a settlement for good
  (`PollRuns.FailedFirstPollMayLoseEvents`); they are harmless exactly if, for every user, what they
  applied is overridden in the covered blocks or changed nothing (`FirstPoll.RunFromFirstSuccess`).
- Spent exceeds deposit exactly when a log of a top-up is applied below what has been spent, as a
  repeated poll can do although totals only rise on the chain (`ChannelLife.NeverOverspentExactly`,
  `ChannelLife.RepeatedTopUpUndercuts`). So can the first poll after the start-up sync, even if no query
  fails, and then exactly with the first log it applies (`ChannelLife.NeverOverspentFromASync`,
  `ChannelLife.FirstWindowUndercutsASync`).
- States that may be signed contradict each other exactly when the opening is covered again and the
  charges after that do not repeat those before (`SignedStates.SignableStatesAreOrderedExactly`,
  `SignedStates.RepeatedOpeningForks`).
- A withdrawal can be given back although it went out, when its receipt is not to be had, or be kept
  although it did not, when the database refuses to give it back or the transfer was reverted. Each entry
  counts as it should exactly if none ends so (`Billing.EachCountsAsDueExactly`), and a balance is what is
  due exactly if these errors cancel (`Billing.BalanceIsDueExactly`, `Billing.WithoutReceiptIsPaidTwice`).
- The sum in a charge wraps at 2^256; the spent amount falls exactly then
  (`Sono.SpentFallsOnlyByWrapping`).
- Amounts between -1 TXT and zero are printed without their sign (`FormatTxt.RoundTripExactly`).
- Dispatches that come between each other's readings and increments can leave loads apart by as many as
  are under way at once, and no more (`DispatchRuns.SpreadIsBounded`, `DispatchRuns.SpreadIsReached`).
- The rotation over the workers visits each once exactly when the 64-bit counter does not wrap on the
  way, or wraps at a multiple of their number (`Dispatch.RotationVisitsEach`).
- A call dropped while sending leaves its worker's counter raised for good
  (`InFlight.LeaksAreForever`), and a worker with more such calls than another healthy one is no longer picked
  (`InFlight.LeakyWorkerIsShunned`).
- Zombie recovery can run a job twice, the second time after younger ones (`JobQueue.RecoveryRunsAJobTwice`).
  No job is claimed twice exactly if no row put back is claimed again (`JobQueue.ClaimedOnceExactly`). That
  no job is claimed before an older one of its priority has been holds in any case
  (`JobQueue.EqualPrioritiesAreFirstComeFirstServed`).
- The most attempts the limiter accepts in 300 seconds is nine (`RateLimiterRuns.AtMostNinePerWindow`,
  `RateLimiterRuns.NineIsReached`), although its comment says five per window.
- During a lockout an attempt is accepted exactly if it had looked before the lockout was set and is
  counted after the counter is gone; where a new counter below five was already standing when the lockout
  was set, being counted is enough (`RateLimiterRuns.LockoutExactly`, `RateLimiterRuns.AcceptedDuringALockout`).
- The first attempt after a lockout need not start a fresh counter. It does exactly if the last thing that
  happened to the counter since the lockout was set is that it was cleared, or dated at least 300 seconds
  before; or, if nothing did, if it had an expiry. One counted late near the end of the lockout spoils it
  (`RateLimiterRuns.AfterTheLockout`, `RateLimiterRuns.LateCountNearTheEnd`).
- An attempt cut off between its count and its expiry leaves a counter that never goes away
  (`RateLimiterRuns.UndatedIsForever`).
- Chunks of bytes are split like the whole stream exactly when no cut goes through a character
  (`Sse.ByteChunksExactly`).
- With `k` requests at once the free tier can give `k` times its limit (`FreeTier.BoundIsReached`).
- A deposit recorded but not credited, after a crash or a manual record, is never credited
  (`Deposits.OrphansStay`, `Deposits.ManualRecordBlocks`).
- A deposit credited while its account has no balance row is lost to the account; a balance accounts for
  all credited deposits exactly if there was none such (`Deposits.BalanceIsCompleteExactly`,
  `Deposits.OpenedTooLate`).

## Model

| member | source | states |
|---|---|---|
| NoiseCodec.OpenExactlyWhatWasSealed | sonotxt-core/src/noise.rs:170-232 | a message opens under exactly the key and nonce it was sealed with, to its plaintext |
| NoiseCodec.TransportState.WriteMessage | sonotxt-core/src/noise.rs:179-183 | sealing advances the send nonce by one, and not at all when the message is too long or the nonces are used up |
| NoiseCodec.TransportState.ReadMessage | sonotxt-core/src/noise.rs:221-226 | opening advances the receive nonce by one, and a failed opening leaves it |
| NoiseCodec.ChunksPartition | sonotxt-core/src/noise.rs:14-14 | the chunks put together are the plaintext, none is empty, and each with its tag is a legal Noise message |
| NoiseCodec.ChunkSizes | sonotxt-core/src/noise.rs:14-14 | every chunk but the last has 65000 bytes, the last one at least |
| NoiseCodec.EncryptChunked | sonotxt-core/src/noise.rs:170-190 | the loop builds the blob of the plaintext and advances the send nonce by the number of chunks; it fails exactly when the nonces run out |
| NoiseCodec.DecryptChunked | sonotxt-core/src/noise.rs:192-232 | the loop answers as the decoder function does, stays in bounds, and leaves the receive nonce that function gives |
| NoiseCodec.DecryptOfEncrypt | sonotxt-core/src/noise.rs:170-232 | decrypting an encrypted blob, whatever follows it, gives back the plaintext held by the chunks the 32-bit count announces, and both nonces advance by that count |
| NoiseCodec.RoundTripExactly | sonotxt-core/src/noise.rs:170-232 | the round trip gives the whole plaintext exactly when the chunk count fits 32 bits |
| NoiseCodec.BlobLength | sonotxt-core/src/noise.rs:170-190 | a blob has 4 + length + 20 bytes per chunk, and no Noise message in it exceeds 65535 bytes |
| NoiseCodec.BlobLayout | sonotxt-core/src/noise.rs:170-190 | the first four bytes are the chunk count, the next four the length of the first message, each least significant byte first, and then that message |
| NoiseCodec.FirstFault | sonotxt-core/src/noise.rs:192-232 | which fault is named, by the bytes of the blob: too short for a count, for a length, for a message; a message too long, too short, beyond the nonces or with another tag |
| NoiseCodec.DecodePastChunks | sonotxt-core/src/noise.rs:200-229 | decoding past well-formed chunks yields their contents and continues at the next nonce |
| NoiseCodec.NonceCountsValidChunks | sonotxt-core/src/noise.rs:192-232 | for arbitrary input the receive nonce advances by exactly the number of complete valid chunks before the fault, and success means all announced chunks are valid |
| NoiseCodec.TrailingBytesIgnored | sonotxt-core/src/noise.rs:192-232 | bytes after an accepted blob change nothing |
| NoiseCodec.CutFrames | sonotxt-core/src/noise.rs:200-229 | a cut run of chunks is refused after exactly its whole chunks |
| NoiseCodec.StrictPrefixRejected | sonotxt-core/src/noise.rs:192-232 | every strict prefix of a blob is refused, with the nonce advanced by the whole chunks it holds |
| NoiseCodec.OutOfStepRejected | sonotxt-core/src/noise.rs:192-232 | a blob sealed from another nonce is refused and does not move the receive nonce |
| Noise.NoiseClient.InitiateHandshake | sonotxt-core/src/noise.rs:36-52 | the hello is made for the given static key and kept as pending |
| Noise.NoiseClient.CompleteHandshake | sonotxt-core/src/noise.rs:54-71 | the pending handshake is consumed in every case; a fitting response sets transport and session id, with both nonces at zero |
| Noise.NoiseClient.Encrypt | sonotxt-core/src/noise.rs:73-80 | without a session an error; otherwise the blob from the current send nonce, which advances by its chunks |
| Noise.NoiseClient.Decrypt | sonotxt-core/src/noise.rs:82-88 | without a session an error; otherwise what the decoder answers from the current receive nonce |
| Noise.NoiseServer.ProcessHandshake | sonotxt-core/src/noise.rs:120-143 | a hello for the server's key adds or replaces one session; another is refused and changes none |
| Noise.NoiseServer.Decrypt | sonotxt-core/src/noise.rs:145-152 | an unknown session is an error; otherwise only that session's receive nonce moves |
| Noise.NoiseServer.Encrypt | sonotxt-core/src/noise.rs:154-161 | an unknown session is an error; otherwise only that session's send nonce moves |
| Noise.NoiseServer.RemoveSession | sonotxt-core/src/noise.rs:163-166 | exactly the named session is gone |
| Noise.Establish | sonotxt-core/src/noise.rs:239-267 | a handshake succeeds exactly for the server's own key, leaves the two ends in step, and touches no other session |
| Noise.Exchange | sonotxt-core/src/noise.rs:239-287 | over a session in step a request and its response arrive unchanged, whatever their length in chunks, and the ends are in step again |
| Attestation.AcceptedExactly | sonotxt-api/src/services/quic_pool.rs:170-197 | with a collision-free hash, a bundle carrying a worker's binding is accepted exactly if it is insecure and its quote and key together are the worker's, and is then the worker's own exactly if its key is as long |
| Attestation.ResplitIsAccepted | sonotxt-worker/src/quic.rs:199-217 | bytes moved from the key to the quote give another bundle that is accepted, under any hash |
| Attestation.OnlyTheOwnBundleConnects | sonotxt-api/src/services/quic_pool.rs:40-53 | of the bundles with a worker's binding exactly its own is accepted and names its key |
| Attestation.Connect | sonotxt-api/src/services/quic_pool.rs:33-62 | a connection succeeds exactly when the bundle is accepted and names the server's key, and then the two ends are in step |
| Framing.DecodeOfEncode | sonotxt-core/src/protocol.rs:139-157 | a frame followed by anything decodes to its message and its own length, exactly when the text is shorter than 2^32 bytes |
| Framing.FrameLayout | sonotxt-core/src/protocol.rs:139-144 | a frame is the length of its text modulo 2^32, in four bytes with the least significant first, and the text |
| Bytes.Le32IsLittleEndian | sonotxt-core/src/protocol.rs:139-157 | the four bytes stand for the number by their places, the least significant first |
| Framing.StrictPrefixIsError | sonotxt-core/src/protocol.rs:146-157 | every strict prefix of one frame is an error, and which one |
| Framing.DecodeAllOfEncodeAll | sonotxt-core/src/protocol.rs:139-157 | messages written back to back are read back as that list, whatever follows |
| Framing.FramingIsUniquelyDecodable | sonotxt-core/src/protocol.rs:139-157 | if one stream of frames is a prefix of another, its messages are the first of the other's |
| Framing.RecvStream.ReadExact | sonotxt-core/src/quic.rs:15-23 | the next bytes, and the position after them; a stream that ends early is used up |
| Framing.WriteMessage | sonotxt-core/src/quic.rs:30-34 | exactly one frame is appended |
| Framing.ReadMessage | sonotxt-core/src/quic.rs:13-28 | reading length, body and message piecewise from the stream answers as decoding the rest of it does, and advances by one frame |
| Framing.SendAndReceive | sonotxt-core/src/quic.rs:13-34 | any list of messages written to a stream is read back as that list |
| QuicWorker.WorkerConnection.HandleStream | sonotxt-worker/src/quic.rs:104-197 | what each kind of message answers and changes: attestation and health are answered, a handshake opens a session, a request is served under its session's next nonces or refused with only what was opened consumed, other sessions rest, and anything else, a job notification among it, is dropped |
| QuicWorker.ConnectTo | sonotxt-api/src/services/quic_pool.rs:33-62 | against the worker's handler, attestation, check and handshake always end with the two ends in step on the session the worker drew |
| QuicWorker.WorkerConnection.Close | sonotxt-worker/src/quic.rs:97-99 | the end of a connection removes its own session and no other |
| QuicWorker.Call | sonotxt-api/src/services/quic_pool.rs:85-136 | with the ends in step, nonces left and messages that fit a frame, the answer to this very request comes back and they are in step again; otherwise the call fails, and a request that does not fit is not opened; if the client is ahead, the call fails and the worker still waits for the same message |
| QuicWorker.NotifyJob | sonotxt-api/src/services/quic_pool.rs:65-82 | the call always fails, leaves the worker as it was, and puts the client ahead |
| Session.WorkerOpensExactlyTheNext | sonotxt-worker/src/quic.rs:135-143 | the worker opens a pending request exactly when it is the one its receive nonce waits for; otherwise the request fails and the nonce stays |
| Session.ClientOpensExactlyTheNext | sonotxt-api/src/services/quic_pool.rs:96-104 | the client opens a pending response exactly when it is the one its receive nonce waits for |
| Session.ActKeeps | sonotxt-api/src/services/quic_pool.rs:65-136 | every step on any stream keeps: client send nonce minus worker receive nonce is the chunks sealed and not opened, and the same in the other direction |
| Session.QuietMeansInStep | sonotxt-api/src/services/quic_pool.rs:85-136 | when every exchange is answered the nonces agree in both directions |
| Session.ExchangeCompletes | sonotxt-worker/src/quic.rs:135-171 | from agreeing nonces, whatever streams are unfinished, an exchange with nonces left and messages that fit delivers the answer with its own request id and kind, and the nonces agree again |
| Session.SerialActionKeeps | sonotxt-api/src/services/quic_pool.rs:85-136 | with one exchange at a time, nonces left and messages that fit, no step makes a request or response fail |
| Session.StepKeeps | sonotxt-worker/src/quic.rs:64-102 | a step of the world of connections keeps the invariants of each, and one connection's step leaves the others alone |
| Session.EveryRun | sonotxt-worker/src/quic.rs:104-197 | in every run of any number of clients, a delivered response answers the request of its own stream, and the nonce gaps are the chunks sealed and not opened |
| Session.SerialRunNeverFails | sonotxt-api/src/services/quic_pool.rs:85-136 | a client with one exchange at a time, nonces left and messages that fit never has one fail, however the others interleave, and agrees with the worker between exchanges |
| SessionBlocked.NotificationIsDead | sonotxt-api/src/services/quic_pool.rs:65-70 | a notification sent in any state with nonces left is a message that is never opened |
| SessionBlocked.BreakKills | sonotxt-worker/src/quic.rs:135-192 | breaking a stream makes its request, or its response, such a message exactly if it was sealed and not opened yet; a caller that stops waiting does so to the response only, and what the worker is still at then goes on unawaited |
| SessionBlocked.OversizedRequestIsDead | sonotxt-core/src/protocol.rs:139-157 | with a nonce left, a request is such a message from the start exactly if the message that carries it does not fit a frame or the nonces do not suffice |
| SessionBlocked.OversizedResponseIsDead | sonotxt-core/src/protocol.rs:139-157 | with a nonce left, a response is, exactly if it is like that or nobody waits for it |
| SessionBlocked.AnswerToNobodyIsDead | sonotxt-worker/src/quic.rs:79-83 | the handler answers a call that nobody waits for all the same: the response is such a message, and the worker's send nonce has moved past it, exactly if it had a nonce left |
| SessionBlocked.GivenUpGoesDead | sonotxt-api/src/services/worker_pool.rs:377-383 | in every run a call given up before it was answered is never answered to its caller, and once the worker has dealt with it its request or its response is such a message, unless the nonces ran out |
| SessionBlocked.GivenUpBlocks | sonotxt-api/src/services/worker_pool.rs:377-383 | from then on no exchange begun later on the connection completes, in any run |
| SessionBlocked.DeadRequestBlocks | sonotxt-worker/src/quic.rs:135-143 | in every reachable state no request sent after such a one has been opened or answered |
| SessionBlocked.DeadResponseBlocks | sonotxt-api/src/services/quic_pool.rs:96-104 | in every reachable state no response sealed after such a one has been opened |
| SessionBlocked.BlockedForever | sonotxt-worker/src/quic.rs:189-192 | in every run, whatever is in flight, such a request stays unopened and so does every later one of its connection |
| SessionBlocked.Drain | sonotxt-worker/src/quic.rs:135-171 | without such messages everything in flight can be brought in until the nonces agree |
| SessionBlocked.AliveExactlyIfNothingDead | sonotxt-api/src/services/quic_pool.rs:65-136 | in every reachable state, a further exchange that the nonces and the frames have room for can be completed exactly if no message in either direction is such a one |
| ChannelEvents.KindOrderMayBeRegrouped | sonotxt-api/src/services/sono.rs:618-683 | a window in which each user's events are opened, topped up, settled may be regrouped |
| ChannelEvents.ReplayIsPerUser | sonotxt-api/src/services/sono.rs:631-680 | a replay leaves each user's channel where that user's events alone would |
| ChannelEvents.ChainOrderResult | sonotxt-api/src/services/sono.rs:631-680 | what a user's events come to in chain order, from the last event of each kind |
| ChannelEvents.GroupedResult | sonotxt-api/src/services/sono.rs:618-683 | what they come to grouped by kind |
| ChannelEvents.RegroupingOneUser | sonotxt-api/src/services/sono.rs:618-683 | for one user the two orders agree exactly under the stated condition on the window |
| ChannelEvents.RegroupingIsSound | sonotxt-api/src/services/sono.rs:618-683 | a poll's order gives the chain-order result exactly when every user's events meet that condition |
| ChannelEvents.WindowsJoin | sonotxt-api/src/services/sono.rs:611-616 | adjoining block windows hold, back to back, what the window over both holds |
| Sono.ChargeUsesRemaining | sonotxt-api/src/services/sono.rs:188-211 | a charge within the remaining credit succeeds and uses it up by its amount; one beyond it succeeds only by wrapping |
| ChannelLife.NeverOverspentExactly | sonotxt-api/src/services/sono.rs:197-211 | over every run of charges, syncs, closings and single logs of polls, failed and repeated ones included, spent stays within deposit throughout exactly if no log of a top-up is applied below what has been spent |
| ChannelLife.NeverOverspentUntroubled | sonotxt-api/src/services/sono.rs:606-688 | over a chain whose totals rise and windows in kind order, with no failed query and no sync, each event is applied once and nothing is ever overspent |
| ChannelLife.NeverOverspentFromASync | sonotxt-api/src/services/sono.rs:282-301 | from a channel found by the start-up sync, as long as no query fails, spent stays within deposit throughout exactly if the first log that a poll applies is not a top-up below what has been spent |
| ChannelLife.FirstWindowUndercutsASync | sonotxt-api/src/services/sono.rs:613-617 | a concrete run in which it is: the first poll looks back past the sync |
| ChannelLife.AlonePollIsPoll | sonotxt-api/src/services/sono.rs:606-688 | the single locks of a poll that nothing comes between do, for each user, what the poll as a whole does |
| ChannelLife.RepeatedTopUpUndercuts | sonotxt-api/src/services/sono.rs:655-661 | a concrete run over a chain whose totals rise that leaves 15 spent of a deposit of 10 |
| SignedStates.CompatibleExactly | sonotxt-api/src/services/sono.rs:203-209 | the states of two starts of the tracked channel are in order exactly if the charges after the one repeat those after the other as far as both go |
| SignedStates.SignableStatesAreOrderedExactly | sonotxt-api/src/services/sono.rs:214-241 | over every run, of all states that may be signed equal nonces mean equal spent and larger nonces spent at least as large, exactly if that holds of the charges after every two starts |
| SignedStates.NonceCountsExactly | sonotxt-api/src/services/sono.rs:203-209 | from any start, a synced one included, the nonce counts the successful charges on top of the first nonce in every state exactly if the opening is not covered again once it is above zero |
| SignedStates.OrderedWhileNonceCounts | sonotxt-api/src/services/sono.rs:214-241 | and then all states that may be signed are in order |
| SignedStates.OrderedFromASync | sonotxt-api/src/services/sono.rs:282-301 | from a channel found by the start-up sync all states that may be signed are in order, and the nonce counts on, unless the opening is covered after anything was charged, before the sync or since |
| SignedStates.RepeatedOpeningForks | sonotxt-api/src/services/sono.rs:631-640 | a concrete run in which a repeated poll leads to two states with nonce 1 and different spent |
| Sono.SpentFallsOnlyByWrapping | sonotxt-api/src/services/sono.rs:203-209 | a charge lets spent fall exactly when its sum wraps and still passes the guard |
| Sono.SonoService.Remaining | sonotxt-api/src/services/sono.rs:188-193 | deposit minus spent, at least zero, and zero without a channel |
| Sono.SonoService.Charge | sonotxt-api/src/services/sono.rs:197-211 | one channel is charged or nothing changes |
| Sono.SonoService.Settle | sonotxt-api/src/services/sono.rs:244-271 | the channel is removed exactly when the closing transaction went through |
| Sono.SonoService.SyncChannels | sonotxt-api/src/services/sono.rs:554-604 | tracked channels stay, and exactly those are added, with the contract's deposit, spent and nonce, that the last 1000 blocks of the chain hold an opening of with this provider and the contract still holds a deposit for |
| Sono.SonoService.ApplyOpened | sonotxt-api/src/services/sono.rs:625-640 | the loop over openings replays those of this service and counts them |
| Sono.SonoService.ApplyToppedUp | sonotxt-api/src/services/sono.rs:648-663 | the loop over top-ups replays those of this service and counts the ones that meet a tracked channel |
| Sono.SonoService.ApplySettled | sonotxt-api/src/services/sono.rs:671-682 | the loop over settlements replays those of this service and counts them: exactly the users of this service's settlements lose their channel |
| Sono.SonoService.PollEvents | sonotxt-api/src/services/sono.rs:606-688 | a poll that nothing comes between applies its groups as far as the queries succeed, and moves the cursor only if all do |
| PollMeaning.OthersChangeNothing | sonotxt-api/src/services/sono.rs:606-682 | another provider's event, wherever in the chain, and an event out of the poll's blocks change nothing a poll does |
| PollMeaning.PollResult | sonotxt-api/src/services/sono.rs:606-688 | for every chain and user: the last opening in range sets deposit and zeroes spent and nonce, the last top-up sets the deposit of the channel there is, a settlement removes it, each as far as the queries succeed, and the cursor moves only if all do |
| PollMeaning.PollCounts | sonotxt-api/src/services/sono.rs:606-688 | a full poll counts its openings and settlements, and the top-ups of users tracked after the openings |
| PollMeaning.OthersOpeningsChangeNothing | sonotxt-api/src/services/sono.rs:575-577 | another provider's opening, wherever in the chain, is not one that a sync finds |
| PollRuns.WindowsAreContiguous | sonotxt-api/src/services/sono.rs:606-688 | over any run the windows of the successful polls are contiguous, disjoint, and end at the cursor |
| PollRuns.FailedPollIsPending | sonotxt-api/src/services/sono.rs:618-683 | a poll that fails on the way leaves only damage that its own window heals |
| PollRuns.SuccessfulPollHeals | sonotxt-api/src/services/sono.rs:618-683 | a successful poll leaves what it would have left had no poll failed before |
| PollRuns.RunTracks | sonotxt-api/src/services/sono.rs:287-301 | after any run the tracked map is the chain-order replay of the covered blocks, up to what later coverage heals |
| PollRuns.Heals | sonotxt-api/src/services/sono.rs:618-683 | a window applied in full makes up for a difference in the tracked channel exactly if it opens or settles it, or tops up two channels that differ in deposit only |
| FirstPoll.FailedPollsApply | sonotxt-api/src/services/sono.rs:611-663 | polls that fail before any succeeds leave the cursor at the start and apply, each from its own head, their openings and perhaps top-ups |
| FirstPoll.RunFromFirstSuccess | sonotxt-api/src/services/sono.rs:287-301 | from the first successful poll on, once the last head is covered, the map is the chain-order replay of all covered blocks exactly if what the failed polls before it applied is harmless for every user |
| FirstPoll.UnreachableIsHarmless | sonotxt-api/src/services/sono.rs:606-625 | polls that fail before they have the openings are harmless |
| PollRuns.LastSuccessCoversAll | sonotxt-api/src/services/sono.rs:606-688 | after a run that ends with a successful poll, the last head is covered |
| PollRuns.CoveringAnOpeningForgetsCharges | sonotxt-api/src/services/sono.rs:631-640 | the poll that covers an opening leaves nothing spent and nonce zero, whatever was charged before |
| PollRuns.FailedFirstPollMayLoseEvents | sonotxt-api/src/services/sono.rs:611-616 | a concrete run in which a failed first poll keeps a settled channel for good |
| FormatTxt.TrimStopsAtPoint | sonotxt-api/src/services/billing.rs:24-32 | trimming zeros takes neither the point nor a digit before it |
| FormatTxt.FormatShape | sonotxt-api/src/services/billing.rs:24-32 | the text is the whole part and, unless that is all, a point and one to ten digits not ending in zero |
| FormatTxt.ReadOfFormat | sonotxt-api/src/services/billing.rs:24-32 | what the printed text reads as, for every amount |
| FormatTxt.RoundTripExactly | sonotxt-api/src/services/billing.rs:24-32 | the printed text reads back as the amount exactly for amounts of zero or more and of -1 TXT or less |
| FormatTxt.FormatIsInjective | sonotxt-api/src/services/billing.rs:24-32 | outside that gap different amounts have different texts |
| FormatTxt.OneAndAHalf | sonotxt-api/src/services/billing.rs:24-32 | 15000000000 raw units are printed as 1.5 |
| Billing.Ledger.CheckAndCharge | sonotxt-api/src/services/billing.rs:45-122 | a positive cost is charged exactly when balance and channel cover it together; the balance pays first, the parts sum to the cost, each side falls by its part, and on failure nothing changes |
| Billing.Ledger.TotalBalance | sonotxt-api/src/services/billing.rs:166-193 | the reported parts are the balance and the clamped channel cover that decide a charge |
| Billing.Ledger.CreditTxt | sonotxt-api/src/services/billing.rs:126-158 | a credit goes through as a whole or not at all |
| Billing.Ledger.BeginWithdrawal | sonotxt-api/src/routes/billing.rs:157-168 | the guarded deduction |
| Billing.Ledger.FinishWithdrawal | sonotxt-api/src/routes/billing.rs:170-194 | a withdrawal without a receipt is given back if the database takes it |
| Billing.Ledger.WithdrawTxt | sonotxt-api/src/routes/billing.rs:141-196 | the whole withdrawal, its refusals included; a failed transfer that is given back leaves every balance as it was |
| Billing.PostKeeps | sonotxt-api/src/services/billing.rs:65-79 | every single step keeps balances equal to their books and not negative |
| Billing.BooksAlwaysBalance | sonotxt-api/src/routes/billing.rs:157-194 | over every run a balance is its opening balance plus credits minus charges minus withdrawals not given back, and is never negative |
| Billing.BalanceIsDueExactly | sonotxt-api/src/services/sono.rs:535-541 | over every run a balance is off what is due by what was given back although it went out, less what neither went out nor was given back; so it is right exactly if the two come to the same |
| Billing.EachCountsAsDueExactly | sonotxt-api/src/routes/billing.rs:170-194 | every entry counts for what is due exactly if no withdrawal of the run ends so: reverted, without a receipt and given back, or not sent and not given back |
| Billing.WithoutReceiptIsPaidTwice | sonotxt-api/src/services/sono.rs:535-541 | a concrete withdrawal that goes out and is given back |
| Billing.SplitChargeNeedsTheReadBalance | sonotxt-api/src/services/billing.rs:82-118 | the split charge takes what it reports exactly when the balance is still what it read |
| Sse.SplitIsTheOnlyOne | sonotxt-api/src/routes/converse.rs:249-251 | cutting at leftmost blank lines is the only way to read a text as finished blocks and an unfinished rest |
| Sse.SplitOfMore | sonotxt-api/src/routes/converse.rs:246-251 | splitting a text and then its rest with more text is splitting it all at once |
| Sse.CutThere | sonotxt-api/src/routes/converse.rs:249-251 | a text without two line feeds in a row and not ending in one is cut off before two that follow |
| Sse.CutNowhere | sonotxt-api/src/routes/converse.rs:249-251 | a text without two line feeds in a row stays in the buffer |
| Sse.SpokenExactly | sonotxt-api/src/routes/converse.rs:253-257 | what is spoken of a block is the text that the reader finds behind "data: ", unless it is empty |
| Sse.SpokenInOrder | sonotxt-api/src/routes/converse.rs:249-257 | blocks are spoken in their order |
| Sse.EventReader.Push | sonotxt-api/src/routes/converse.rs:246-284 | one chunk of bytes, decoded by itself, takes off every finished block, hands on its sentence, and leaves the rest; each round shortens the buffer by at least two |
| Sse.EventReader.Consume | sonotxt-api/src/routes/converse.rs:234-285 | the loop over the stream ends with the one-shot split of the text of all chunks received before its end or first error |
| Utf8.DecodeInTwo | sonotxt-api/src/routes/converse.rs:246-246 | two parts of a byte string decode to the text of the whole exactly if the cut between them goes through no character; otherwise to a longer text |
| Utf8.DecodeOfEncode | sonotxt-api/src/routes/converse.rs:246-246 | every text is read back from its encoding, which is by division of the numbers of its characters |
| Utf8.NothingElseIsRead | sonotxt-api/src/routes/converse.rs:246-246 | bytes in which nothing is replaced are the encoding of what they are read as |
| Utf8.EndIsLongest | sonotxt-api/src/routes/converse.rs:246-246 | one replacement stands for the longest part that the encoding of some character begins with, or for a single byte that none begins with |
| Utf8.EuroCut | sonotxt-api/src/routes/converse.rs:246-246 | a cut after the first byte of the euro sign turns it into three replacement characters |
| Utf8.ApartIsTogetherExactly | sonotxt-api/src/routes/converse.rs:246-246 | chunks decoded one by one give the text of the whole exactly if no cut goes through a character |
| Sse.ByteChunksExactly | sonotxt-api/src/routes/converse.rs:234-285 | for a byte stream however cut, the blocks and the rest are those of its whole text exactly if no cut goes through a character |
| Sse.FeedIsOneShot | sonotxt-api/src/routes/converse.rs:234-285 | feeding chunks one by one gives the one-shot split of the whole text |
| Sse.ChunkingDoesNotMatter | sonotxt-api/src/routes/converse.rs:234-285 | two ways of cutting one text give the same blocks and the same rest |
| RateLimiter.Redis.CheckRateLimit | sonotxt-api/src/services/user_auth.rs:22-52 | an attempt that nothing comes between changes and answers for one identifier only, command by command, as the attempt function says |
| RateLimiter.AttemptAnswers | sonotxt-api/src/services/user_auth.rs:28-51 | such an attempt is accepted exactly if there is no lockout and at most four are counted on a live counter; the first dates the counter and the sixth sets the lockout |
| RateLimiter.Redis.ClearRateLimit | sonotxt-api/src/services/user_auth.rs:55-62 | clearing drops one identifier's counter and keeps its lockout |
| RateLimiterRuns.AtMostNinePerWindow | sonotxt-api/src/services/user_auth.rs:17-52 | in every interleaving of commands, cut-off attempts included, at most nine attempts are accepted in any half-open 300 seconds, and five more for each clearing |
| RateLimiterRuns.NineIsReached | sonotxt-api/src/services/user_auth.rs:17-52 | nine are reached, by attempts one after the other |
| RateLimiterRuns.AtMostFivePerCounter | sonotxt-api/src/services/user_auth.rs:33-51 | in every interleaving at most five attempts are accepted during one life of the counter |
| RateLimiterRuns.AloneIsAttempt | sonotxt-api/src/services/user_auth.rs:22-52 | the commands of an attempt that nothing comes between do what the attempt function says |
| RateLimiterRuns.LockoutStopsAllButEarlier | sonotxt-api/src/services/user_auth.rs:28-31 | whatever is accepted during a lockout had looked before it was set |
| RateLimiterRuns.LockoutExactly | sonotxt-api/src/services/user_auth.rs:45-49 | in the 900 seconds after a lockout is set, whatever the counter then is, only attempts that had looked before are accepted, and one is exactly if it is counted after the counter is gone or, with a counter below five standing when the lockout is set, if it is counted at all |
| RateLimiterRuns.AcceptedDuringALockout | sonotxt-api/src/services/user_auth.rs:27-49 | a concrete interleaving in which one is |
| RateLimiterRuns.AfterTheLockout | sonotxt-api/src/services/user_auth.rs:33-51 | an attempt counted after a lockout starts a fresh counter exactly if, of all late counts, expiries and clearings since the lockout was set, the last is a clearing or an expiry set at least 300 seconds before; without any, exactly if the counter had an expiry |
| RateLimiterRuns.LateCountNearTheEnd | sonotxt-api/src/services/user_auth.rs:33-41 | a concrete late count that, early in the lockout, leaves the first attempt after it a fresh counter and, near its end, makes it the second on a live one |
| RateLimiterRuns.CutOffLeavesUndated | sonotxt-api/src/services/user_auth.rs:33-41 | an attempt cut off between count and expiry leaves the counter without one, unless another is about to set it |
| RateLimiterRuns.UndatedIsForever | sonotxt-api/src/services/user_auth.rs:33-41 | such a counter never goes away: until cleared, only what it has left is ever accepted |
| Dispatch.CandidatesAre | sonotxt-api/src/services/worker_pool.rs:544-569 | the candidates are the healthy workers no healthy worker undercuts, or all workers if none is healthy |
| Dispatch.EvenLoadsLeaveAll | sonotxt-api/src/services/worker_pool.rs:561-569 | with equal loads every healthy worker is a candidate |
| Dispatch.PickFromDefined | sonotxt-api/src/services/worker_pool.rs:561-569 | the loads are read twice; a choice exists exactly when some second reading equals the least first one |
| Dispatch.PickIsLowest | sonotxt-api/src/services/worker_pool.rs:561-569 | among workers on two neighbouring levels the pick is on the lower one |
| Dispatch.PickTakesTurns | sonotxt-api/src/services/worker_pool.rs:544-569 | the pick is the least loaded healthy worker before which stand as many such as the counter modulo their number |
| Dispatch.DispatchIsEven | sonotxt-api/src/services/worker_pool.rs:544-569 | when every pick is sent before the next: after k dispatches without completions each of n healthy workers holds k/n more, k mod n of them one more than that, and the others are left alone |
| DispatchRuns.AloneIsPick | sonotxt-api/src/services/worker_pool.rs:561-569 | a picker that nothing comes between, reading each load twice, picks what the function says |
| DispatchRuns.ComparedIsLeast | sonotxt-api/src/services/worker_pool.rs:564-566 | whatever comes between, a worker taken into the choice is among the least loaded at that moment |
| DispatchRuns.SpreadIsBounded | sonotxt-api/src/services/worker_pool.rs:544-569 | in every interleaving of readings, turns and increments without completions, with at most k pickers at once past their first reading, no two loads are more than k apart |
| DispatchRuns.SpreadIsReached | sonotxt-api/src/services/worker_pool.rs:544-569 | k apart is reached for every k |
| DispatchRuns.EvenOneByOne | sonotxt-api/src/services/worker_pool.rs:544-569 | with one such picker at a time, after s increments each of n workers holds s/n more and exactly s mod n one more than that |
| Dispatch.RotationVisitsEach | sonotxt-api/src/services/worker_pool.rs:544-569 | with each call over before the next, n picks visit each of n candidates once exactly when the counter does not wrap or wraps at a multiple of n |
| InFlight.NextKeeps | sonotxt-api/src/services/worker_pool.rs:98-117 | every step keeps each counter equal, modulo 2^64, to the calls that hold it |
| InFlight.CounterIsAwaitingPlusDropped | sonotxt-api/src/services/worker_pool.rs:338-348 | in every interleaving a counter is its calls awaiting the send plus those dropped while they did, and never underflows |
| InFlight.LeaksAreForever | sonotxt-api/src/services/worker_pool.rs:497-505 | in every later state of fewer than 2^64 calls a counter is at least what had been dropped while sending |
| InFlight.LeakyWorkerIsShunned | sonotxt-api/src/services/worker_pool.rs:561-569 | when no call awaits a send, a healthy worker with more dropped calls than another is never picked by calls made one after the other |
| WorkerPool.Worker.Call | sonotxt-api/src/services/worker_pool.rs:93-147 | a reply yields its audio, a timeout while sending or reading is a timeout, anything else a failure; one request is counted, a failure if the send failed or was refused, and the in-flight counter stays raised only by a timeout while sending |
| WorkerPool.WorkerPool.Pick | sonotxt-api/src/services/worker_pool.rs:544-559 | the pick of the snapshot, and the shared counter one further unless there is no worker |
| WorkerPool.WorkerPool.PickFrom | sonotxt-api/src/services/worker_pool.rs:561-569 | the least loaded of a non-empty choice in turn, the loads being read twice; it fails exactly if no second reading equals the least first one, and never with loads at rest |
| WorkerPool.WorkerPool.PickDifferent | sonotxt-api/src/services/worker_pool.rs:571-578 | the pick among the others, and the counter one further if there are any |
| WorkerPool.PickOtherIsAnother | sonotxt-api/src/services/worker_pool.rs:571-578 | the backup is healthy and another worker; none is found exactly when there is no other healthy one |
| WorkerPool.PickOtherTakesTurns | sonotxt-api/src/services/worker_pool.rs:571-578 | the backup is the other healthy worker before which stand as many such as the counter modulo their number |
| WorkerPool.WorkerPool.WithRetry | sonotxt-api/src/services/worker_pool.rs:515-540 | without workers unavailable; otherwise the audio of the first attempt that is answered, or else timeout or failure as the last one ended; and the counters are those of the retry over the snapshot |
| WorkerPool.RetryAnswers | sonotxt-api/src/services/worker_pool.rs:515-540 | the first answer wins, without one the error is that of the last attempt, and without workers it is unavailable |
| WorkerPool.DecisiveAnswers | sonotxt-api/src/services/worker_pool.rs:515-540 | for any number of attempts: the audio of the first that is answered, or else how the last one failed |
| WorkerPool.TryIsThePickedOnes | sonotxt-api/src/services/worker_pool.rs:515-540 | an attempt moves the turn on by one and counts its request, failures and raised counter on the picked worker alone |
| WorkerPool.RetryAccounts | sonotxt-api/src/services/worker_pool.rs:515-540 | one request per attempt made, one failure per failed attempt and a second where the call noted it too, one raised counter per attempt dropped while sending |
| WorkerPool.RetryGoesElsewhere | sonotxt-api/src/services/worker_pool.rs:515-540 | the retry goes to the same worker exactly when it is the only candidate or the counter wraps just then with remainder one |
| WorkerPool.TimeoutGoesElsewhere | sonotxt-api/src/services/worker_pool.rs:515-540 | after a timeout while sending, a second healthy candidate is always preferred |
| JobQueue.SomeRowIsNext | sonotxt-api/src/job_worker.rs:60-72 | if a row is queued, some row is one the claiming statement may take |
| JobQueue.JobTable.RecoverZombies | sonotxt-api/src/job_worker.rs:36-47 | each row in processing and created more than 300 seconds ago is queued again, every other is as before, and none so old is left in processing |
| JobQueue.JobTable.Run | sonotxt-api/src/job_worker.rs:13-34 | recovery and then the loop claim exactly the jobs that were queued or zombies, each once, in order, and leave none queued |
| JobQueue.JobTable.ProcessNext | sonotxt-api/src/job_worker.rs:59-150 | nothing is claimed exactly when nothing is queued; otherwise a row of the highest priority queued and, of those, of the earliest creation, and only its status changes: completed if uploaded, failed if marked so, otherwise in processing |
| JobQueue.UrgentFirst | sonotxt-api/src/job_worker.rs:60-72 | in every run no claim passes over a queued row of higher priority, or over one of the same that was created earlier |
| JobQueue.JobTable.Drain | sonotxt-api/src/job_worker.rs:26-33 | with no arrivals every queued job is claimed exactly once, in order of priority and then creation, and the queue ends empty |
| JobQueue.ClaimOrderIsUnique | sonotxt-api/src/job_worker.rs:62-70 | without ties there is only one such order |
| JobQueue.ClaimsPerJob | sonotxt-api/src/job_worker.rs:36-47 | in every run no job is claimed more often than once plus once per recovery |
| JobQueue.EqualPrioritiesAreFirstComeFirstServed | sonotxt-api/src/job_worker.rs:59-72 | with arrivals in creation order, in every run, recovery included, no job is claimed before all older ones of its priority have been |
| JobQueue.ClaimedOnceExactly | sonotxt-api/src/job_worker.rs:36-72 | in every run no job is claimed twice exactly if no row that recovery has put back is claimed |
| JobQueue.RecoveryRunsAJobTwice | sonotxt-api/src/job_worker.rs:36-47 | a concrete run in which recovery has the older job claimed again after the younger |
| TtsRoute.Service.Tts | sonotxt-api/src/routes/api.rs:194-378 | a request gets a job exactly when its text is of legal size and it is paid for or fits the allowance; which of these decides the priority; a paid job takes the cost and no allowance, a free one allowance and no money; and what is kept when writing the job fails |
| TtsRoute.Service.Charge | sonotxt-api/src/services/billing.rs:45-122 | a charge succeeds exactly when balance and channel together cover it, and takes exactly the cost from the two together |
| TtsRoute.PaidGoFirst | sonotxt-api/src/job_worker.rs:60-72 | in every run of the queue over rows that requests wrote, no free job is claimed while a paid one waits, and none without an account while one with an account waits |
| TtsRoute.PaidOvertakes | sonotxt-api/src/routes/api.rs:256-356 | of an anonymous, a free and a later paid job the paid one is claimed |
| FreeTier.FreeTierUsage.CheckLimitWith | sonotxt-api/src/auth/free_tier.rs:206-241 | on the first check of a day exactly what is within the limit is admitted and the whole limit reported; later that day, what is within the limit less what was used; no other row changes |
| FreeTier.FreeTierUsage.CheckLimit | sonotxt-api/src/auth/free_tier.rs:198-204 | the limit without an account is 300 characters |
| FreeTier.FreeTierUsage.Consume | sonotxt-api/src/auth/free_tier.rs:243-258 | consumption adds to its own row, whatever the day, and does nothing without one |
| FreeTier.FreeTierUsage.GetRemaining | sonotxt-api/src/auth/free_tier.rs:261-287 | reading resets on a new day too, and reports at least zero |
| FreeTier.RowIsUsedSinceFirstTouch | sonotxt-api/src/auth/free_tier.rs:206-258 | over every run, from the first look at the row on a day until one on a later day, it is dated that day and holds exactly the characters used up since |
| FreeTier.UsedPlusAdmitted | sonotxt-api/src/routes/api.rs:283-290 | with at most k requests between check and consumption, used plus admitted never exceeds k limits, over every interleaving and change of day |
| FreeTier.ServedPerDay | sonotxt-api/src/routes/api.rs:328-339 | on no day do the requests admitted that day get more than k limits served |
| FreeTier.OneAtATime | sonotxt-api/src/auth/free_tier.rs:206-258 | one request at a time never exceeds the limit |
| FreeTier.BoundIsReached | sonotxt-api/src/auth/free_tier.rs:206-258 | k limits are reached for every k, so no smaller bound holds |
| Deposits.PaymentsDb.InsertRow | migrations/002_auth_payments.sql:42-54 | an insert fails exactly for a transaction already there or an unknown account |
| Deposits.PaymentsDb.CreditDeposit | sonotxt-api/src/services/payments/mod.rs:12-66 | status, balance if there is one, and log entry change together |
| Deposits.PaymentsDb.OnDeposit | sonotxt-api/src/services/payments/assethub.rs:346-399 | with nothing in between: an unknown account, a transaction already there and an account that does not exist change nothing, and what each source answers; otherwise one row, credited or, by hand, pending, the balance raised by the amount if there is one, and one entry in the log |
| Deposits.SoundStep | sonotxt-api/src/services/payments/penumbra.rs:58-90 | every step of every handler keeps transactions unique, log entries one per credited row, and recorded rows with their own handlers |
| Deposits.CreditedAtMostOnce | sonotxt-api/src/services/payments/assethub.rs:349-399 | over every interleaving and crash no transaction is credited twice, and every account that has a balance in the end, opened at any time, has on it its initial value plus what landed, the credited deposits less what was lost |
| Deposits.BalanceIsCompleteExactly | sonotxt-api/src/services/payments/mod.rs:33-46 | a balance is its initial value plus all its credited deposits exactly if none of them was credited before the account had a balance row |
| Deposits.NoneEarlyWithABalance | sonotxt-api/src/services/payments/mod.rs:33-46 | an account with a balance row from the start loses none |
| Deposits.OpenedTooLate | sonotxt-api/src/auth/zid.rs:142-147 | a concrete run: 5 credited, then the row opened, with nothing on it |
| Deposits.OrphansStay | sonotxt-api/src/services/payments/assethub.rs:349-362 | a recorded deposit whose handler is gone is never credited |
| Deposits.CrashOrphans | sonotxt-api/src/services/payments/assethub.rs:365-399 | a crash has that effect exactly between recording and crediting |
| Deposits.ManualRecordBlocks | sonotxt-api/src/services/payments/penumbra.rs:310-341 | a deposit first recorded by hand is never credited, whatever other handlers are under way |
| Deposits.AloneIsHandled | sonotxt-api/src/services/payments/penumbra.rs:37-99 | a handler left alone does, in its steps, what the method does |

## Left out

- Session.EveryRun: requests and interleavings are modelled on values, with connections and transports as records, because steps of different tasks come between each other; what is left of a message whose length was cut to 32 bits is taken for no JSON text, and a handshake to draw a session id not in use.
- Noise.Establish: key agreement is a stand-in in which both sides contribute a value, and which refuses a static key of another length than its own; the cipher's tag names key and nonce instead of authenticating the text.
- Attestation.AcceptedExactly: the hash is a parameter, assumed collision-free here.
- ChannelLife.NeverOverspentExactly: the channel is followed on values, one user at a time, because tasks come between each other's locks; a sync is assumed to find no channel overspent on the chain, and closing removes the channel in one step.
- SignedStates.SignableStatesAreOrderedExactly: assumes that no sum of a charge wraps and that the 64-bit nonce does not; the signature itself is not modelled.
- FirstPoll.RunFromFirstSuccess: says nothing of a run whose last head is not covered; `PollRuns.RunTracks` does. Reorganised chains and undecodable logs are not modelled.
- Billing.BooksAlwaysBalance: statements interleave, but a split charge counts as one step; `SplitChargeNeedsTheReadBalance` says when that is sound.
- Sse.EventReader.Consume: the speech of a sentence is the recorded text.
- RateLimiterRuns.AtMostNinePerWindow: Redis errors, which the program takes for an absent lockout and a first attempt, are not modelled.
- DispatchRuns.SpreadIsBounded: the set of healthy workers does not change during a run, and no call ends in it.
- WorkerPool.RetryAccounts: request and failure statistics are unbounded; the wrap of the in-flight counter is in `InFlight`.
- JobQueue.JobTable.Drain: which of several tied rows is claimed is left open; rows other claimers hold locked are claims already made.
- FreeTier.UsedPlusAdmitted: character counts are not negative and stay within 32 bits.
- TtsRoute.Service.Tts: one request at a time; the clean-up of text, voice and engine, and the push notification of the job, are not modelled.
- Deposits.CreditedAtMostOnce: amounts are reals, so no rounding; other uses of the balance, such as grants and spending, are not modelled.
- Deposits.BalanceIsCompleteExactly: reported amounts are taken to be positive.
- Floating-point prices and the price oracle: rounding cannot be modelled as exact arithmetic.
- JSON, HTTP routes, QUIC and TLS set-up, storage, signatures, e-mail and passkeys: outside calls or one-branch checks.
- The older copy of the program under `src/`, and the Zcash scanner, which keeps its own set of seen transactions in memory.
- The health checks, the voice list, the ASR fallback and the backup request: they would add only easy members; a backup request drops calls as `InFlight` models it.
