# Verified models of the voice endpoint's media and session core

The repository is a real-time voice endpoint: C++ firmware for an ESP32 device and a Python desktop
reference client. This project models the logic between the sockets and the speaker and proves what
the code relies on there: every authenticated packet is played at most once, a stopped response never
sounds again, a resampled stream does not depend on how it was cut, a session is revoked exactly once.

How it is organised:

- Where the source updates an object in place, the model has a class with the source's fields, loops and
  branches. Every method is proved against a function on values (`ensures Model() == F(old(Model()), …)`).
- The theorems are about those functions: `…Runs` modules state what holds over every run, every
  interleaving or every message history, and `…Answers` modules (and lemmas named `…Decides` or `…Iff`)
  state which answer each operation must give, in terms of what happened before and of literal limits.
- Clocks, decryption results, storage failures and the verdict of a validator are parameters, so each
  theorem holds for whatever they turn out to be.

| Part | Files |
|---|---|
| Machine integers, bitmaps, rings | `Machine.dfy`, `BitArithmetic.dfy`, `Rings.dfy` |
| Replay windows of both endpoints | `ReplayWindow.dfy` |
| Firmware jitter buffer | `JitterBuffer.dfy` (meaning), `SlotTable.dfy`, `JitterSlots.dfy` (slot array) |
| Firmware UDP session | `UdpWire.dfy`, `UdpSessionModel.dfy`, `FutureFrames.dfy`, `UdpSession.dfy`, `UdpSessionRuns.dfy`, `UdpSessionAnswers.dfy`, `UplinkRuns.dfy` |
| Firmware UDP runtime (two tasks) | `PlayoutQueue.dfy`, `UdpRuntime.dfy`, `UdpRuntimeRuns.dfy` |
| Firmware WebSocket owner | `WssFragments.dfy`, `WssOwner.dfy` |
| Firmware playback and session | `PlaybackState.dfy`, `PlaybackObject.dfy`, `PlaybackRuns.dfy`, `PlaybackAnswers.dfy`, `VoiceSession.dfy`, `VoiceSessionObject.dfy`, `VoiceSessionAnswers.dfy` |
| Firmware Base64 and endpoint storage | `Base64.dfy`, `DeviceConfig.dfy` |
| Desktop resampler | `Resampler.dfy`, `PcmBytes.dfy` |
| Desktop UDP transport | `DesktopTransport.dfy`, `DesktopTransportObject.dfy`, `DesktopTransportRuns.dfy` |
| Desktop session and concealment | `DesktopSession.dfy`, `DesktopSessionObject.dfy`, `DesktopSessionAnswers.dfy`, `DesktopDownlink.dfy`, `Concealment.dfy` |

Three promises do not hold of the code on all inputs, and are given with their exact condition:

- The two replay windows agree on a stream from the start if and only if its first sequence is at most
  1024 (`ReplayWindow.FreshWindowsAgreeIff`): the firmware measures the first sequence from 0, the desktop
  takes any. After any first common commit they always agree (`ReplayWindow.AgreeOnceStarted`).
- The jitter cursor is a wrapping 32-bit number. `Jitter.WrappedRunPlaysBackwards` is a run that plays sequence
  2^32-1 and then 0. The cursor of a run wraps if and only if some pop of it finds 2^32-1 held with only control
  packets before it (`Jitter.RunWrapsIff`); in every other run, and so in every run whose packets stay below 2^32-1,
  what is played strictly increases (`Jitter.EmittedStrictlyIncrease`, `Jitter.BelowLastIncreases`).
- The desktop receive loop does not buffer every packet it accepts. `DesktopTransportRuns.AcceptedFrameCanBeLost`
  gives an audio frame and a keepalive that are accepted and lost. In every reachable state an accepted packet is lost
  if and only if the loop turns to something else first (a frame that is ready, or a request to reopen) while the cursor
  has not passed the packet (`DesktopTransportRuns.AcceptedFrameLostIff`). Its sequence is committed, so it is lost for good.

Also, moving the jitter cursor with `BeginAt` over held packets would let an insertion report a full buffer
(`Jitter.BeginAtOverHeldPacketsCanFill`); the session invariant shows that the session never does this.

## Model

| member | source | states |
|---|---|---|
| `ReplayWindow.FirmwareWindow.CanAccept` | firmware/components/transport_udp/replay_window.cc:5-9 | The bitmap test accepts exactly a forward jump of at most 1024 or an uncommitted sequence less than 64 behind, judged on the set of all committed sequences |
| `ReplayWindow.FirmwareWindow.Commit` | firmware/components/transport_udp/replay_window.cc:11-19 | A guarded commit adds exactly its sequence to the set the 64-bit bitmap represents |
| `ReplayWindow.FirmwareWindow.Reset` | firmware/components/transport_udp/replay_window.cc:21 | Forgets every committed sequence |
| `ReplayWindow.DesktopWindow.Acceptable` | clients/desktop_reference/src/rva_desktop/protocol/udp.py:26-34 | Same test on the whole history, plus any first sequence; out-of-range integers are refused |
| `ReplayWindow.DesktopWindow.Commit` | clients/desktop_reference/src/rva_desktop/protocol/udp.py:36-48 | Succeeds exactly for acceptable sequences, adds exactly that one, and otherwise changes nothing |
| `ReplayWindow.ForwardRepresents` | firmware/components/transport_udp/replay_window.cc:11-19 | Shifting the bitmap on a forward jump still represents every committed sequence in the window |
| `ReplayWindow.BehindRepresents` | firmware/components/transport_udp/replay_window.cc:11-19 | Setting a bit behind the highest represents the set with that sequence added, within 64 bits |
| `ReplayWindow.ShiftedBits` | firmware/components/transport_udp/replay_window.cc:11-19 | The 64-bit shift with its cut-off at 64 moves every bit by the distance and sets bit 0 |
| `ReplayWindow.MaskedBits` | clients/desktop_reference/src/rva_desktop/protocol/udp.py:36-48 | The unbounded shift under a mask gives the same bits as the firmware's 64-bit shift |
| `ReplayWindow.AcceptedAtMostOnce` | firmware/components/transport_udp/replay_window.cc:5-19 | In every stream of offers to either window, an accepted sequence is never accepted again |
| `ReplayWindow.OfferIff` | firmware/components/transport_udp/replay_window.cc:5-19 | In every stream, once one sequence was taken, an offer is taken if and only if it lies at most 1024 above the greatest taken so far, or less than 64 below it and was not taken before |
| `ReplayWindow.FirstOfferIff` | clients/desktop_reference/src/rva_desktop/protocol/udp.py:26-34 | Of a first offer the firmware takes exactly 0 to 1024, the desktop every sequence |
| `ReplayWindow.AgreeOnceStarted` | clients/desktop_reference/src/rva_desktop/protocol/udp.py:26-48 | Once both windows have committed the same sequences, they take every later decision alike |
| `ReplayWindow.FreshWindowsAgreeIff` | clients/desktop_reference/src/rva_desktop/protocol/udp.py:26-34 | Two fresh windows decide a whole stream alike if and only if its first sequence is at most 1024 |
| `Jitter.ReserveKeepsWindow` | firmware/components/transport_udp/jitter_buffer.cc:8-46 | Held packets stay inside four places from the cursor, an insertion never finds the buffer full, and is accepted exactly for the right generation, a new sequence and one not behind the cursor |
| `Jitter.BeginAtOverHeldPacketsCanFill` | firmware/components/transport_udp/jitter_buffer.cc:138-141 | Moving the cursor over held packets makes a later insertion report a full buffer |
| `Jitter.PopMeaning` | firmware/components/transport_udp/jitter_buffer.cc:75-129 | A pop plays the lowest held audio packet as received, or conceals only when the lowest later packet has waited 120 ms, or changes no audio; when it does which is `Jitter.PopDecides` |
| `Jitter.PopDecides` | firmware/components/transport_udp/jitter_buffer.cc:75-129 | With c the sequence behind the control packets at the cursor: audio if and only if c is held; concealment if and only if c is not held and the lowest later packet has waited at least 120 000 µs; nothing if and only if neither |
| `Jitter.RunCounted` | firmware/components/transport_udp/jitter_buffer.cc:75-129 | Over every run the counters of frames played and lost are the audio frames and the concealments given out, modulo 2^32 |
| `Jitter.PopCounts` | firmware/components/transport_udp/jitter_buffer.cc:75-129 | A pop counts by the frame it gave out; the greatest media age is raised to the whole milliseconds the frame waited |
| `Jitter.PopOfFreshBuffer` | firmware/components/transport_udp/jitter_buffer.cc:75-80 | A buffer that was never started gives out nothing and stays as it is |
| `Jitter.ReserveDecides` | firmware/components/transport_udp/jitter_buffer.cc:8-46 | Exactly when an insertion is late, a duplicate, held beside the others (within four of the cursor), or held alone with the cursor jumping to it; buffer and counters in each case |
| `Jitter.ReserveRefuses` | firmware/components/transport_udp/jitter_buffer.cc:8-46 | A packet of another generation changes nothing |
| `Jitter.InsertAudioDecides` | firmware/components/transport_udp/jitter_buffer.cc:48-62 | Audio is inserted exactly with a payload of 1 to 1200 bytes |
| `Jitter.PopKeepsWindow` | firmware/components/transport_udp/jitter_buffer.cc:75-129 | A pop keeps the window and never invents or alters a held packet |
| `Jitter.RunAccounted` | firmware/components/transport_udp/jitter_buffer.cc:8-129 | Over every run without a reset: cursor advance equals audio played plus concealed plus control slots plus sequences skipped, and frames come from strictly increasing places |
| `Jitter.EmittedStrictlyIncrease` | firmware/components/transport_udp/jitter_buffer.cc:75-129 | Over every run in which no pop finds sequence 2^32-1 held behind control packets only, emitted sequences strictly increase |
| `Jitter.BelowLastIncreases` | firmware/components/transport_udp/jitter_buffer.cc:75-129 | Over every run that neither holds nor inserts sequence 2^32-1, emitted sequences strictly increase |
| `Jitter.RunWrapsIff` | firmware/components/transport_udp/jitter_buffer.cc:75-129 | The cursor of a run passes 2^32 if and only if some pop of it finds 2^32-1 held with only control packets before it |
| `Jitter.WrappedRunPlaysBackwards` | firmware/components/transport_udp/jitter_buffer.cc:88-122 | A run of two packets that plays 2^32-1 and then 0 |
| `Jitter.CursorMovesBackIff` | firmware/components/transport_udp/jitter_buffer.cc:75-129 | One pop moves the cursor back if and only if sequence 2^32-1 is held and only control slots lie before it |
| `JitterSlots.JitterBuffer.Reserve` | firmware/components/transport_udp/jitter_buffer.cc:8-46 | The scan over four slots finds the slot, result and counters of the insertion on a map |
| `JitterSlots.JitterBuffer.InsertAudio` | firmware/components/transport_udp/jitter_buffer.cc:48-62 | Refuses empty or oversized payloads, else fills the reserved slot as on a map |
| `JitterSlots.JitterBuffer.InsertControl` | firmware/components/transport_udp/jitter_buffer.cc:64-73 | Reserves a control slot as on a map |
| `JitterSlots.JitterBuffer.Pop` | firmware/components/transport_udp/jitter_buffer.cc:75-129 | The loops over the slot array give the frame, buffer and counters, the greatest media age included, of the pop on a map |
| `JitterSlots.JitterBuffer.FirstLater` | firmware/components/transport_udp/jitter_buffer.cc:75-129 | The scan returns the lowest held sequence beyond the cursor, or none exactly when there is none |
| `JitterSlots.JitterBuffer.Reset` | firmware/components/transport_udp/jitter_buffer.cc:131-136 | Empties every slot and takes the new generation |
| `JitterSlots.JitterBuffer.BeginAt` | firmware/components/transport_udp/jitter_buffer.cc:138-141 | Moves the cursor and nothing else |
| `UdpWire.ParseIffEncoding` | firmware/components/voice_contracts/udp_wire.cc:38-118 | A datagram parses to a view if and only if it is the encoding of a header of valid shape for its direction, followed by ciphertext of the announced length and a tag |
| `UdpWire.HeaderLayout` | firmware/components/voice_contracts/udp_wire.cc:70-83 | Each header field stands at its byte position, most significant byte first |
| `UdpWire.ShapeIff` | firmware/components/voice_contracts/udp_wire.cc:38-68 | Which type, sequence, generation, timestamp and length a header may have in each direction, with the literal flag values and limits |
| `UdpWire.NonceLayout` | firmware/components/voice_contracts/udp_wire.cc:126-131 | The nonce is the salt followed by the sequence, most significant byte first |
| `UdpWire.FieldsRoundTrip` | firmware/components/voice_contracts/udp_wire.cc:70-83 | Decoding the fields of an encoded header gives the header back |
| `UdpWire.FieldsCanonical` | firmware/components/voice_contracts/udp_wire.cc:85-118 | Encoding the decoded fields gives the same bytes back |
| `UdpWire.NonceInjective` | firmware/components/voice_contracts/udp_wire.cc:126-131 | Under one salt, equal nonces mean equal sequences |
| `FutureFrames.SortBySequence` | firmware/components/transport_udp/udp_session.cc:156-185 | The insertion sort orders exactly the given slot indices by strictly ascending sequence |
| `FutureFrames.FutureFrames.Buffer` | firmware/components/transport_udp/udp_session.cc:127-154 | Stashes a frame ahead of its response, replacing the oldest of its generation when full, as on a map |
| `FutureFrames.FutureFrames.ClearBelow` | firmware/components/transport_udp/udp_session.cc:97-112 | Keeps exactly the stashed frames of this generation or newer |
| `FutureFrames.FutureFrames.Release` | firmware/components/transport_udp/udp_session.cc:156-185 | Hands exactly the frames of the generation to the jitter buffer by ascending sequence and keeps exactly the newer ones |
| `UdpSessions.UdpSession.Configure` | firmware/components/transport_udp/udp_session.cc:47-72 | Accepts exactly a valid grant with installed keys and starts from empty buffers, else leaves the session revoked |
| `UdpSessions.UdpSession.Revoke` | firmware/components/transport_udp/udp_session.cc:79-95 | Drops everything held and refuses all later work |
| `UdpSessions.UdpSession.FenceGeneration` | firmware/components/transport_udp/udp_session.cc:97-112 | Ends playback, empties the jitter buffer and keeps only stashed frames the fence allows |
| `UdpSessions.UdpSession.AdvanceGeneration` | firmware/components/transport_udp/udp_session.cc:114-125 | Starts playback of a generation and releases its stashed frames |
| `UdpSessions.UdpSession.Receive` | firmware/components/transport_udp/udp_session.cc:252-348 | Result, new state and every counter for every source, datagram, decryption outcome and session state |
| `UdpSessions.UdpSession.PopPlayout` | firmware/components/transport_udp/udp_session.cc:350-354 | Pops from the jitter buffer unless the session is revoked |
| `UdpSessions.UdpSession.Build` | firmware/components/transport_udp/udp_session.cc:224-250 | Builds the sealed datagram of the next sequence exactly when sending is allowed, and advances the sequence only then |
| `UdpSessions.UdpSession.BuildProbe` | firmware/components/transport_udp/udp_session.cc:196-208 | Builds the probe once and repeats the stored bytes |
| `UdpSessions.UdpSession.BuildKeepalive` | firmware/components/transport_udp/udp_session.cc:210-214 | Builds an empty keepalive datagram |
| `UdpSessions.UdpSession.BuildAudio` | firmware/components/transport_udp/udp_session.cc:216-222 | Builds an audio datagram with its timestamp |
| `SessionRuns.RunSound` | firmware/components/transport_udp/udp_session.cc:47-354 | Every operation in every order keeps each authenticated sequence in at most one place (jitter buffer, stash, played), unaltered, and audio buffered only for the active generation |
| `SessionAnswers.UnboundSource` | firmware/components/transport_udp/udp_session.cc:273-284 | In every reachable state without a bound source a decrypted datagram is refused for its source if and only if it is not a probe acknowledgement from the granted server; that one binds the server; a refusal changes counters only |
| `SessionAnswers.BoundSource` | firmware/components/transport_udp/udp_session.cc:273-284 | In every reachable state with a bound source that source is the granted server, and a decrypted datagram is refused for its source if and only if it comes from another endpoint; a refusal changes counters only |
| `SessionAnswers.BoundStays` | firmware/components/transport_udp/udp_session.cc:79-348 | Only a revocation or a configuration changes a bound source |
| `SessionAnswers.RefusedFor` | firmware/components/transport_udp/udp_session.cc:252-279 | In every reachable state: revoked, bad framing, wrong session, replay and failed authentication, each if and only if it applies and no earlier one does; a refused datagram changes counters only |
| `SessionAnswers.OldAudio` | firmware/components/transport_udp/udp_session.cc:281-348 | In every reachable state authentic audio of an older generation is stale and changes nothing held |
| `SessionAnswers.EarlyAudio` | firmware/components/transport_udp/udp_session.cc:281-348 | Before the first acknowledgement authentic audio is answered but not held |
| `SessionAnswers.EarlyControl` | firmware/components/transport_udp/udp_session.cc:281-325 | Before the first acknowledgement every other authentic control packet is answered but not held |
| `SessionAnswers.PlayableAudio` | firmware/components/transport_udp/udp_session.cc:281-348 | In every reachable state authentic audio of the response being played is held exactly as it arrived, or turned away if and only if the cursor has passed it |
| `SessionAnswers.FutureAudio` | firmware/components/transport_udp/udp_session.cc:127-154 | In every reachable state authentic audio of a response that may not play yet is stashed as it arrived while fewer than four are; when full it replaces the oldest of its generation if that is older, else it is turned away |
| `SessionAnswers.FutureCounted` | firmware/components/transport_udp/udp_session.cc:300-331 | In every reachable state, exactly which authentic audio counts as of a future generation, kept or not |
| `SessionAnswers.ControlPacket` | firmware/components/transport_udp/udp_session.cc:281-348 | In every reachable state an authentic control packet takes its place in the sequence unless the cursor has passed it, and which answer it gets |
| `SessionAnswers.FirstAcknowledgement` | firmware/components/transport_udp/udp_session.cc:281-348 | The first acknowledgement makes the session ready, expecting the sequence after it |
| `SessionAnswers.ReceiveTime` | firmware/components/transport_udp/udp_session.cc:281-294 | Which authentic packets count as signs of life |
| `SessionAnswers.AdvanceReleases` | firmware/components/transport_udp/udp_session.cc:114-185 | In every reachable state an accepted advance, to the same or a larger generation, leaves playback active; every stashed frame of it leaves the stash and is held as it arrived or passed by the cursor; newer frames stay |
| `SessionAnswers.AdvanceDecides` | firmware/components/transport_udp/udp_session.cc:114-125 | In every reachable state: which advances change nothing, and which stashed frames an accepted one keeps |
| `SessionAnswers.AdvanceHoldsWindow` | firmware/components/transport_udp/udp_session.cc:114-185 | When the stashed frames of a new response lie within four sequences, all of them are held and playout starts at the lowest |
| `SessionAnswers.FenceSilences` | firmware/components/transport_udp/udp_session.cc:97-112 | After an accepted fence, whatever arrives, no audio is given out until a response is begun |
| `SessionAnswers.FenceDecides` | firmware/components/transport_udp/udp_session.cc:97-112 | In every reachable state: what an accepted fence empties, which stashed frames it keeps, and that nothing else changes |
| `SessionAnswers.ConfigureDecides` | firmware/components/transport_udp/udp_session.cc:47-72 | Which grants are accepted, and that an accepted one starts from nothing |
| `SessionAnswers.RevokeDecides` | firmware/components/transport_udp/udp_session.cc:79-95 | What a revoked session has forgotten, and the counters it keeps |
| `SessionAnswers.PlayoutDecides` | firmware/components/transport_udp/udp_session.cc:350-354 | In every reachable state the session gives out audio, concealment or nothing exactly as its sequence window calls for, once ready and unless revoked |
| `SessionRuns.AudioOnlyWhileActive` | firmware/components/transport_udp/udp_session.cc:97-185 | After every run, audio leaves the session only while playback is active and with the current generation |
| `SessionRuns.EachSequencePlayedOnce` | firmware/components/transport_udp/udp_session.cc:252-354 | In every run each sequence gives at most one audio frame per configured session |
| `SessionRuns.PlayedIsAuthentic` | firmware/components/transport_udp/udp_session.cc:252-354 | Every played frame carries the payload, timestamp and generation of an authenticated datagram of that sequence received earlier in the run, whether it went through the stash or not |
| `SessionRuns.QueueFullMeansLate` | firmware/components/transport_udp/udp_session.cc:308-348 | In every reachable state audio of the active response, or a control packet whether a response is active or not, is reported as queue-full exactly when it is behind the playout cursor |
| `SessionRuns.NoInsertIsFull` | firmware/components/transport_udp/udp_session.cc:156-185 | In every reachable state no packet inserted directly and none released from the stash finds the four slots full |
| `SessionRuns.CountersTellOutcomes` | firmware/components/transport_udp/udp_session.cc:252-348 | Between two configurations, after every run, every examined datagram was counted as received and each refusal counter is the number of datagrams with that outcome, modulo 2^32 |
| `UplinkRuns.NoncesNeverRepeat` | firmware/components/transport_udp/udp_session.cc:196-250 | Between two configurations no two successful encryptions use the same nonce, whatever else happens in between |
| `UplinkRuns.ProbesIdentical` | firmware/components/transport_udp/udp_session.cc:196-208 | Between two configurations all probe datagrams are byte-identical |
| `UplinkRuns.ExhaustionStops` | firmware/components/transport_udp/udp_session.cc:224-250 | Once the last sequence is used nothing more is encrypted; the counter does not wrap |
| `UplinkRuns.BuiltParses` | firmware/components/transport_udp/udp_session.cc:224-250 | A built datagram parses on the other side to the header, ciphertext and tag it was built from |
| `UplinkRuns.BuildIff` | firmware/components/transport_udp/udp_session.cc:224-250 | A datagram is built if and only if the session is open, the payload suits its kind and fits, a sequence is left and encryption succeeds |
| `UplinkRuns.ProbeIff` | firmware/components/transport_udp/udp_session.cc:196-208 | A probe is handed out if and only if there is room and one was built before or can be built now; it is the stored one |
| `Playout.Leading` | firmware/components/transport_udp/playout_queue.cc:47-70 | The number of head frames a poll discards: all stale or expired, and the next one is neither |
| `Playout.PollWithin` | firmware/components/transport_udp/playout_queue.cc:47-70 | For every age limit, 0 meaning none, a poll gives out the first queued frame within it, drops and counts those before it, and keeps those behind it |
| `Playout.PollDecides` | firmware/components/transport_udp/udp_runtime.cc:124-133 | The runtime's poll gives out the first queued frame that is at most 360 000 µs old |
| `Playout.PushDecides` | firmware/components/transport_udp/playout_queue.cc:26-41 | An open queue keeps the newest four frames of its generation; any other push changes nothing |
| `Playout.GenerationDecides` | firmware/components/transport_udp/playout_queue.cc:5-24 | Which generations open, empty or leave the queue |
| `Playout.PlayoutQueue.Open` | firmware/components/transport_udp/playout_queue.cc:5-10 | Empties the ring and opens it unless the generation is 0 |
| `Playout.PlayoutQueue.AdvanceGeneration` | firmware/components/transport_udp/playout_queue.cc:12-17 | Empties the ring for a strictly larger generation, else changes nothing |
| `Playout.PlayoutQueue.Close` | firmware/components/transport_udp/playout_queue.cc:19-24 | Closes and empties the ring |
| `Playout.PlayoutQueue.Push` | firmware/components/transport_udp/playout_queue.cc:26-41 | Appends a frame of the queue's generation, dropping the oldest of four when full; refuses others |
| `Playout.PlayoutQueue.PopFresh` | firmware/components/transport_udp/playout_queue.cc:47-70 | The loop over the ring removes stale and expired heads, counts the expired, and returns the first fresh frame |
| `UdpRuntimes.UdpRuntime.FenceGeneration` | firmware/components/transport_udp/udp_runtime.cc:108-114 | Fences queue then session, or neither after a stop or for an older generation |
| `UdpRuntimes.UdpRuntime.AdvanceGeneration` | firmware/components/transport_udp/udp_runtime.cc:116-122 | Advances queue then session, or neither |
| `UdpRuntimes.UdpRuntime.PollPlayout` | firmware/components/transport_udp/udp_runtime.cc:124-133 | Gives out the first fresh frame and counts the expired ones |
| `UdpRuntimes.UdpRuntime.RequestStop` | firmware/components/transport_udp/udp_runtime.cc:135-142 | Revokes the session and closes the queue |
| `UdpRuntimes.UdpRuntime.PumpOne` | firmware/components/transport_udp/udp_runtime.cc:168-193 | Moves one frame from the session to the queue and counts a replaced one |
| `RuntimeRuns.RunOrdered` | firmware/components/transport_udp/udp_runtime.cc:108-193 | In every interleaving of the two tasks the open queue's generation is at least the session's, every queued frame carries it, and the session stays sound |
| `RuntimeRuns.FenceIsFinal` | firmware/components/transport_udp/udp_runtime.cc:108-133 | Once a fence or advance to g took its queue step, no later poll in any interleaving yields a frame older than g |
| `RuntimeRuns.StopIsFinal` | firmware/components/transport_udp/udp_runtime.cc:135-142 | Once a stop closed the queue, no later poll in any interleaving yields anything |
| `RuntimeRuns.PolledExactlyOnce` | firmware/components/transport_udp/udp_runtime.cc:124-193 | In every interleaving polled frames come in the order the session gave them out, and no two polled audio frames have the same sequence |
| `RuntimeRuns.PolledIsAuthentic` | firmware/components/transport_udp/udp_runtime.cc:124-193 | In every interleaving every polled audio frame is exactly what was authenticated under its sequence |
| `RuntimeRuns.GenerationSteps` | firmware/components/transport_udp/udp_runtime.cc:108-122 | The check, queue and session steps of a fence or advance, taken together, do what the locked operation does |
| `RuntimeRuns.StopSteps` | firmware/components/transport_udp/udp_runtime.cc:135-142 | The three steps of a stop, taken together, do what the locked operation does |
| `RuntimeRuns.PumpSteps` | firmware/components/transport_udp/udp_runtime.cc:168-193 | A pop step and a push step, taken together, do what one turn of the receive task does |
| `RuntimeRuns.PollSteps` | firmware/components/transport_udp/udp_runtime.cc:124-133 | A poll step hands the playback task exactly what the queue gives out |
| `RuntimeRuns.ReceiveSteps` | firmware/components/transport_udp/udp_runtime.cc:168-193 | A receive step hands the datagram to the session and leaves the queue alone |
| `WssFragments.MergeInvisible` | firmware/components/transport_wss/wss_owner.cc:203-226 | Consuming a merged fragment gives the assembly and result of consuming its two parts one after the other |
| `WssFragments.OfferSound` | firmware/components/transport_wss/wss_owner.cc:108-162 | Every accepted fragment adds exactly its bytes, and slot, byte and fragment limits keep holding |
| `WssFragments.OfferDecides` | firmware/components/transport_wss/wss_owner.cc:108-162 | An offered event is accepted if and only if it is admissible, its bytes fit, and a slot is free or it continues the newest event within one slot; the queue then grows by it or by its bytes |
| `WssFragments.MadeOf` | firmware/components/transport_wss/wss_owner.cc:86-106 | How many slots and bytes a queue of a given size has |
| `WssFragments.ConsumeDecides` | firmware/components/transport_wss/wss_owner.cc:203-226 | When a fragment is rejected, completes its frame, or is kept as part of it |
| `WssFragments.HandleDecides` | firmware/components/native_runtime/voice_runtime.cc:582-612 | The supervisor stops at a disconnect, an error or a rejected fragment, and at nothing else |
| `WssFragments.CoalescingIsInvisible` | firmware/components/transport_wss/wss_owner.cc:108-226 | For every interleaving of pushes and pops, what was delivered is a prefix of what the accepted raw fragments deliver one by one, and equal to it, assembly included, when the queue is drained; queued bytes stay within capacity |
| `WssFragments.CutFrameIsRebuilt` | firmware/components/native_runtime/voice_runtime.cc:582-612 | One frame cut anywhere into non-empty fragments is delivered as exactly that frame |
| `WssOwner.CallbackEventQueue.TryPush` | firmware/components/transport_wss/wss_owner.cc:108-162 | The ring with its byte counter drops, merges or queues as on a sequence, and counts drops |
| `WssOwner.CallbackEventQueue.TryPop` | firmware/components/transport_wss/wss_owner.cc:164-186 | Returns and removes exactly the oldest event, keeping the byte counter equal to the queued bytes |
| `WssOwner.FrameAssembler.Consume` | firmware/components/transport_wss/wss_owner.cc:203-226 | Appends, completes or rejects a fragment |
| `WssOwner.FrameAssembler.Reset` | firmware/components/transport_wss/wss_owner.cc:228-232 | Forgets the partial frame |
| `PlaybackObject.PlaybackState.Begin` | firmware/components/native_runtime/playback_state.cc:23-41 | Starts a response above the fence from a clean state, else changes nothing |
| `PlaybackObject.PlaybackState.SetFinalMediaSequence` | firmware/components/native_runtime/playback_state.cc:43-67 | Records the announced final sequence and deadline, ending at once if it was already finished |
| `PlaybackObject.PlaybackState.Stop` | firmware/components/native_runtime/playback_state.cc:69-87 | Ends the response and raises the fence; a repeat is accepted only with the same fence |
| `PlaybackObject.PlaybackState.Fail` | firmware/components/native_runtime/playback_state.cc:89-93 | Ends an active response as failed |
| `PlaybackObject.PlaybackState.MarkDegraded` | firmware/components/native_runtime/playback_state.cc:95-99 | Marks an active response so that it cannot complete any more |
| `PlaybackObject.PlaybackState.RequestFinalPlc` | firmware/components/native_runtime/playback_state.cc:101-113 | Grants a final concealment once, when due and one frame short |
| `PlaybackObject.PlaybackState.ExpireDrain` | firmware/components/native_runtime/playback_state.cc:115-128 | Ends a response that did not drain in time as failed |
| `PlaybackObject.PlaybackState.RecordWritten` | firmware/components/native_runtime/playback_state.cc:134-158 | Counts written samples and reports the start once |
| `PlaybackObject.PlaybackState.FinishFrame` | firmware/components/native_runtime/playback_state.cc:160-178 | Ends the response when the announced final frame is finished |
| `PlaybackObject.PlaybackState.End` | firmware/components/native_runtime/playback_state.cc:185-207 | Emits the end fact with its evidence and clears the response |
| `PlaybackRuns.GenerationsIncrease` | firmware/components/native_runtime/playback_state.cc:23-41 | In every run begun generations strictly increase |
| `PlaybackRuns.FenceNeverDecreases` | firmware/components/native_runtime/playback_state.cc:69-87 | In every run the fence never goes back |
| `PlaybackRuns.OneStartThenOneEnd` | firmware/components/native_runtime/playback_state.cc:134-207 | In every run each response emits at most one start and then at most one end, in order of generation |
| `PlaybackRuns.EndFactsAreEvidence` | firmware/components/voice_protocol/control.cc:552-559 | Every end fact passes the encoder's guard exactly when its samples fit 2^53-1, states the samples really written, and if completed was never degraded and ended on the announced final sequence |
| `PlaybackAnswers.CompletedIff` | firmware/components/native_runtime/playback_state.cc:43-207 | After every run a response is reported as completed if and only if it played out undegraded: its announced final sequence was also finished, in either order |
| `PlaybackAnswers.DegradedFails` | firmware/components/native_runtime/playback_state.cc:43-207 | After every run a degraded response that played out is reported as failed |
| `PlaybackAnswers.PlaysOutNow` | firmware/components/native_runtime/playback_state.cc:43-178 | The very operation by which the response in progress plays out, announcement or finish, reports its end, and no other announcement or finish does |
| `PlaybackAnswers.DrainComesDue` | firmware/components/native_runtime/playback_state.cc:43-128 | After an announcement, whatever follows, the response is over, or one of the two drain operations succeeds if and only if 1.5 s have passed |
| `PlaybackAnswers.FenceIsLastEnd` | firmware/components/native_runtime/playback_state.cc:185-207 | After every run the fence is that of the last stop or the last generation ended, 0 before any |
| `PlaybackAnswers.BeginIff` | firmware/components/native_runtime/playback_state.cc:23-41 | After every run a response begins if and only if none is in progress, it has a name and its generation is past the fence; it may then be played |
| `PlaybackAnswers.StopIff` | firmware/components/native_runtime/playback_state.cc:69-87 | After every run the response in progress is stopped if and only if the fence is past its generation; that becomes the fence and the end is reported |
| `PlaybackAnswers.StopRepeats` | firmware/components/native_runtime/playback_state.cc:69-78 | After a stop, and whatever follows until the next response begins, the stop is accepted again if and only if it repeats the fence |
| `PlaybackAnswers.AnnounceIff` | firmware/components/native_runtime/playback_state.cc:43-67 | An end can be announced if and only if it is the first of the response in progress and nothing beyond it was written or finished; the deadline saturates |
| `PlaybackAnswers.WrittenIff` | firmware/components/native_runtime/playback_state.cc:135-156 | Samples are recorded if and only if they are of the response in progress, go forward, stay within the announced end and do not overflow 64 bits |
| `PlaybackAnswers.FinishIff` | firmware/components/native_runtime/playback_state.cc:158-178 | A frame is finished if and only if it is the one written last, was not finished, and is not past the announced end |
| `PlaybackAnswers.FinalPlcIff` | firmware/components/native_runtime/playback_state.cc:101-116 | The final concealment is granted if and only if the drain is due, it was not granted, and only the final frame is missing |
| `PlaybackAnswers.ExpireIff` | firmware/components/native_runtime/playback_state.cc:118-128 | A drain expires, as failed, if and only if it is due and no concealment is to be granted first |
| `PlaybackAnswers.CanPlayIff` | firmware/components/native_runtime/playback_state.cc:130-133 | After every run frames may be played if and only if they are of the response in progress |
| `PlaybackAnswers.FailIff` | firmware/components/native_runtime/playback_state.cc:89-99 | A response can be failed or marked as degraded if and only if it is in progress |
| `PlaybackRuns.OneFinalPlc` | firmware/components/native_runtime/playback_state.cc:101-113 | In every run no response gets two final concealments |
| `PlaybackRuns.ExactlyOneDrains` | firmware/components/native_runtime/playback_state.cc:101-128 | When a drain is due exactly one of final concealment and expiry succeeds, and which one is decided by eligibility |
| `PlaybackRuns.DrainPollEnds` | firmware/components/native_runtime/voice_runtime.cc:1480-1497 | Once the deadline has passed, one poll, any operations in any order, and one later poll leave the response over: behind the fence, with its end reported |
| `PlaybackRuns.FirstPollDrains` | firmware/components/native_runtime/voice_runtime.cc:1480-1497 | The first due poll grants the one concealment exactly when only the final frame is missing and none was granted, else ends the response as failed |
| `PlaybackRuns.GrantedPlcCompletes` | firmware/components/native_runtime/playback_state.cc:134-178 | A granted concealment that is written and finished completes an undegraded response |
| `PlaybackRuns.OverIsSilent` | firmware/components/native_runtime/playback_state.cc:130-132 | Nothing of a response that is over may play again, in any later run |
| `VoiceSessionObject.SessionGate.BeginFreshSession` | firmware/components/voice_core/session_gate.cc:19-30 | Opens only from idle and only for a larger session generation |
| `VoiceSessionObject.SessionGate.CommitMedia` | firmware/components/voice_core/session_gate.cc:32-40 | Becomes active with an owner that matches the profile |
| `VoiceSessionObject.SessionGate.AdvancePlaybackGeneration` | firmware/components/voice_core/session_gate.cc:42-48 | Only while active and strictly forward |
| `VoiceSessionObject.SessionGate.BeginClose` | firmware/components/voice_core/session_gate.cc:50-58 | Starts closing from an opening or active session |
| `VoiceSessionObject.SessionGate.FinishClose` | firmware/components/voice_core/session_gate.cc:60-69 | Becomes idle only from closing |
| `VoiceSessionObject.Session.BeginFreshSession` | firmware/components/voice_core/session.cc:5-9 | Opens the gate for a new connection |
| `VoiceSessionObject.Session.CommitLocked` | firmware/components/voice_core/session.cc:11-30 | The locked part of a hello commit and the snapshot it publishes |
| `VoiceSessionObject.Session.AdvanceLocked` | firmware/components/voice_core/session.cc:32-55 | The locked part of a playback advance by the current owner |
| `VoiceSessionObject.Session.CloseByOwnerLocked` | firmware/components/voice_core/session.cc:77-108 | The locked part of a close by snapshot, and which session must be revoked |
| `VoiceSessionObject.Session.CloseByGenerationLocked` | firmware/components/voice_core/session.cc:110-144 | The locked part of a close by connection generation, and which session must be revoked |
| `VoiceSessionObject.Session.FinishClose` | firmware/components/voice_core/session.cc:146-156 | Refused while a revocation is in progress or for another connection |
| `VoiceSessionRuns.RevokedExactlyOnce` | firmware/components/voice_core/session.cc:77-197 | With arbitrary re-entrant callbacks, every committed session that reached idle was revoked exactly once at transport, audio and event listener |
| `VoiceSessionRuns.NeverRevokedEarly` | firmware/components/voice_core/session.cc:77-144 | A session that is active or was never committed has not been revoked |
| `VoiceSessionRuns.NoFinishDuringRevocation` | firmware/components/voice_core/session.cc:146-156 | While any revocation callback is on the stack, finishing a close is refused |
| `VoiceSessionRuns.SendControlSawOneSession` | firmware/components/voice_core/session.cc:57-71 | If the same session is active at check and at re-check, it was active at every moment between, because connection generations never repeat |
| `VoiceSessionAnswers.SnapshotIsTrue` | firmware/components/voice_core/session.cc:14-55 | In every re-entrant run the snapshot callbacks receive has the gate's connection, playback, profile and owner |
| `VoiceSessionAnswers.BeginIff` | firmware/components/voice_core/session.cc:5-9 | In every run a session opens if and only if the gate is idle and its number is larger than that of the session opened last, 0 before any |
| `VoiceSessionAnswers.CommitIff` | firmware/components/voice_core/session.cc:14-30 | In every run a hello is committed if and only if that session is opening and the owner is the one its profile calls for |
| `VoiceSessionAnswers.AdvanceIff` | firmware/components/voice_core/session.cc:32-55 | In every run playback advances if and only if the caller is the active session and the generation grows; callbacks are told the new one |
| `VoiceSessionAnswers.CloseByOwnerIff` | firmware/components/voice_core/session.cc:77-108 | In every run: which snapshots close the active session, and that while closing only a repeat is accepted |
| `VoiceSessionAnswers.CloseByGenerationIff` | firmware/components/voice_core/session.cc:110-144 | In every run a close by number is accepted if and only if that session is in progress; only a committed one is revoked |
| `VoiceSessionAnswers.FinishIff` | firmware/components/voice_core/session.cc:146-156 | In every run a close finishes if and only if that session is closing and no revocation callback is on the stack |
| `VoiceSessionAnswers.ClosingEnds` | firmware/components/voice_core/session.cc:77-204 | In every run closing the active session, three returns and a finish lead to idle, with transport, audio and listener each told once |
| `VoiceSessionAnswers.AdvanceCallbacks` | firmware/components/voice_core/session.cc:32-55 | In every run the listener hears of an advance after the audio, and only if it is still current |
| `Base64.DecodesExactlyEncodings` | firmware/components/voice_protocol/control.cc:156-193 | For every size, a string decodes to bytes if and only if it is their RFC 4648 encoding and they have that size |
| `Base64.DigitsInOrder` | firmware/components/voice_protocol/control.cc:147-154 | The alphabet of table 1 of RFC 4648, digit by digit |
| `Base64.ThreeByteNumber` | firmware/components/voice_protocol/control.cc:156-193 | The four digits of a group are the base-64 digits of the number its three bytes write in base 256 |
| `Base64.EncodeGroups` | firmware/components/voice_protocol/control.cc:156-193 | Encoding goes three bytes to four digits, a short last group padded |
| `Base64.DecodeFixedBase64` | firmware/components/voice_protocol/control.cc:156-193 | The loop over four-character groups fills the output exactly as the decoding on values says |
| `Base64.QuadIff` | firmware/components/voice_protocol/control.cc:156-193 | One group decodes to bytes exactly when it is their group, unused bits and padding included |
| `Base64.SymbolIff` | firmware/components/voice_protocol/control.cc:147-154 | A character reads as a digit or padding exactly when it is that digit's or padding's character |
| `DeviceConfig.Config.Save` | firmware/components/device_config/device_config.cc:252-279 | Store contents and result of saving an endpoint for every failure at every storage operation |
| `DeviceConfig.Config.Bind` | firmware/components/device_config/device_config.cc:281-296 | Store contents and result of binding a token for every failure at every storage operation |
| `DeviceConfig.HistoryKeepsBound` | firmware/components/device_config/device_config.cc:252-296 | Over every history, cut short anywhere, a stored token is present only with the origin it was bound to |
| `DeviceConfig.ResolvedTokenBelongsToOrigin` | firmware/components/device_config/device_config.cc:188-296 | Over every history, a resolved token was bound to, or provisioned for, the resolved endpoint's origin |
| `DeviceConfig.BoundTokenResolves` | firmware/components/device_config/device_config.cc:205-296 | When nothing breaks, saving an endpoint and binding a token resolves to exactly that pair |
| `DeviceConfig.FirstValidResolves` | firmware/components/device_config/device_config.cc:188-204 | Of the provisioned endpoints the first valid one is used, with its own token |
| `DeviceConfig.NothingSaved` | firmware/components/device_config/device_config.cc:205-250 | Without a valid saved endpoint the first valid provisioned one is used |
| `DeviceConfig.SavedWithToken` | firmware/components/device_config/device_config.cc:205-250 | A saved endpoint with a token stored for its origin resolves to both |
| `DeviceConfig.SavedWithoutToken` | firmware/components/device_config/device_config.cc:205-250 | Without one it takes the first token provisioned for its origin, or else gives way to the first valid provisioned endpoint |
| `DeviceConfig.UnreadableResolvesNothing` | firmware/components/device_config/device_config.cc:205-250 | A failed read of the saved endpoint or of what belongs to it resolves nothing |
| `DeviceConfig.OtherOriginForgetsToken` | firmware/components/device_config/device_config.cc:252-279 | Saving an endpoint of another origin forgets the token, even when cut short after that |
| `DeviceConfig.SameOriginKeepsToken` | firmware/components/device_config/device_config.cc:252-279 | Saving an endpoint of the same origin keeps the token, even when cut short |
| `Resampler.RoundIff` | clients/desktop_reference/src/rva_desktop/audio/resample.py:67-98 | The rounding used is to the nearest integer, ties to even, and nothing else is |
| `Resampler.MonoAt` | clients/desktop_reference/src/rva_desktop/audio/resample.py:44-57 | Output j of the downmix is the nearest integer, ties to even, to the mean of samples j·c up to j·c+c |
| `Resampler.MonoSize` | clients/desktop_reference/src/rva_desktop/audio/resample.py:44-57 | Whole frames of c samples give one output each |
| `Resampler.SumJoins` | clients/desktop_reference/src/rva_desktop/audio/resample.py:44-57 | The sum of the channels is additive; with its values on no and on one sample that makes it their total |
| `Resampler.MonoOfStereo` | clients/desktop_reference/src/rva_desktop/audio/resample.py:44-57 | Stereo is mixed to the rounded mean of left and right |
| `Resampler.ValueMeaning` | clients/desktop_reference/src/rva_desktop/audio/resample.py:67-98 | Each output lies nearest to the line between its neighbours, needs no clamp, and is the input sample itself at whole positions |
| `Resampler.FloatValue` | clients/desktop_reference/src/rva_desktop/audio/resample.py:67-98 | Interpolation in floating point rounds to the same sample when its error is below half a part of the output rate and whole and half values are exact |
| `Resampler.TotalIff` | clients/desktop_reference/src/rva_desktop/audio/resample.py:67-98 | Output k exists exactly when its position k·in/out lies before the end of the input, so there are ceil(n·out/in) |
| `Resampler.ReadyIff` | clients/desktop_reference/src/rva_desktop/audio/resample.py:67-98 | Output k is available before the flush exactly when its position does not pass the last sample |
| `Resampler.ChunkingIsInvisible` | clients/desktop_reference/src/rva_desktop/audio/resample.py:44-98 | For every split of the input, concatenated outputs plus the flush are the batch interpolation of the whole input |
| `Resampler.Pcm16MonoResampler.Push` | clients/desktop_reference/src/rva_desktop/audio/resample.py:44-57 | Yields exactly the newly available outputs, keeps at most one sample, never falls behind, and refuses misaligned or late input unchanged |
| `PcmBytes.PushBytes` | clients/desktop_reference/src/rva_desktop/audio/resample.py:44-57 | On bytes: each of the three errors exactly when it applies and in the source's order, else the bytes of the newly available outputs |
| `PcmBytes.SamplesIffBytes` | clients/desktop_reference/src/rva_desktop/audio/resample.py:11-25 | Little-endian bytes and PCM16 samples determine each other |
| `PcmBytes.SampleAt` | clients/desktop_reference/src/rva_desktop/audio/resample.py:11-25 | Sample k is the two's-complement value of bytes 2k and 2k+1, low byte first |
| `Resampler.Pcm16MonoResampler.Flush` | clients/desktop_reference/src/rva_desktop/audio/resample.py:59-65 | Yields exactly the remaining outputs once, then nothing |
| `Resampler.Pcm16MonoResampler.Produce` | clients/desktop_reference/src/rva_desktop/audio/resample.py:67-98 | The loop yields the outputs from the current position to its goal and trims exactly the samples no later output needs |
| `Resampler.Pcm16MonoResampler.Downmix` | clients/desktop_reference/src/rva_desktop/audio/resample.py:44-57 | Mixes each frame of channels to its rounded mean |
| `Resampler.ResampleChunks` | clients/desktop_reference/tests/test_audio_resample.py:39-51 | Pushing any aligned chunks through a fresh object and flushing gives the batch result of their concatenation |
| `DesktopTransport.ContiguousReleases` | clients/desktop_reference/src/rva_desktop/transport/udp.py:301-313 | Releasing stops at the first missing sequence, keeps held packets ahead of the cursor and disjoint, and released frames ascending |
| `DesktopTransport.SettleSettles` | clients/desktop_reference/src/rva_desktop/transport/udp.py:282-330 | After every buffering fewer than four packets are held, all beyond the cursor, with a deadline armed while any is held |
| `DesktopTransport.ContiguousDecides` | clients/desktop_reference/src/rva_desktop/transport/udp.py:301-313 | A release hands out exactly the held frames up to the first missing sequence, in order, and keeps all others |
| `DesktopTransport.GapDecides` | clients/desktop_reference/src/rva_desktop/transport/udp.py:315-325 | Giving up on a gap moves to the lowest held packet and releases from there |
| `DesktopTransport.AudioDecides` | clients/desktop_reference/src/rva_desktop/transport/udp.py:282-330 | What buffering audio does: released with all that follow if it is next; held while fewer than four wait; the fourth gives up on the gap |
| `DesktopTransport.OtherDecides` | clients/desktop_reference/src/rva_desktop/transport/udp.py:292-330 | The same for a packet without audio |
| `DesktopTransport.LateDecides` | clients/desktop_reference/src/rva_desktop/transport/udp.py:282-299 | A packet behind the cursor changes nothing |
| `DesktopTransportObject.UdpMediaTransport.ReleaseContiguous` | clients/desktop_reference/src/rva_desktop/transport/udp.py:301-313 | The loop over dict and set gives the release on values |
| `DesktopTransportObject.UdpMediaTransport.ReleaseGap` | clients/desktop_reference/src/rva_desktop/transport/udp.py:315-325 | Jumps to the lowest held sequence and releases from there |
| `DesktopTransportObject.UdpMediaTransport.ArmReorderDeadline` | clients/desktop_reference/src/rva_desktop/transport/udp.py:327-330 | Arms a deadline once while something is held beyond the cursor |
| `DesktopTransportObject.UdpMediaTransport.BufferAudioFrame` | clients/desktop_reference/src/rva_desktop/transport/udp.py:282-290 | Checks freshness, ignores late frames, else holds the frame and settles |
| `DesktopTransportObject.UdpMediaTransport.BufferNonAudio` | clients/desktop_reference/src/rva_desktop/transport/udp.py:292-299 | Ignores late sequences, else marks the sequence and settles |
| `DesktopTransportObject.UdpMediaTransport.AcceptFrame` | clients/desktop_reference/src/rva_desktop/transport/udp.py:197-235 | Commits, parks, skips or refuses a decrypted packet by replay window and validator |
| `DesktopTransportObject.UdpMediaTransport.AdmitPendingControl` | clients/desktop_reference/src/rva_desktop/transport/udp.py:237-258 | Tries every parked packet by ascending sequence, with every early exit |
| `DesktopTransportObject.UdpMediaTransport.ExpireReceiveDeadlines` | clients/desktop_reference/src/rva_desktop/transport/udp.py:332-339 | Asks for a reopen exactly when a parked packet is too old, else releases a gap whose deadline passed |
| `DesktopTransportObject.UdpMediaTransport.ReceiveDatagram` | clients/desktop_reference/src/rva_desktop/transport/udp.py:112-155 | One turn of the receive loop, with the clock read anew at each point: state, outcome and the frame returned |
| `DesktopTransportRuns.AlwaysOrderly` | clients/desktop_reference/src/rva_desktop/transport/udp.py:227-330 | In every run held audio and other sequences are disjoint, beyond the cursor, at most three, and a deadline is armed while any is held |
| `DesktopTransportRuns.ReleasedAscend` | clients/desktop_reference/src/rva_desktop/transport/udp.py:282-325 | In every run frames become ready in strictly increasing sequence, from 1 on and below the cursor |
| `DesktopTransportRuns.StaleIff` | clients/desktop_reference/src/rva_desktop/transport/udp.py:341-351 | A frame is stale if and only if it is later than the media clock of its generation allows |
| `DesktopTransportRuns.FreshDecides` | clients/desktop_reference/src/rva_desktop/transport/udp.py:341-351 | A fresh frame keeps the media clock of its generation, or starts it |
| `DesktopTransportRuns.AcceptDecides` | clients/desktop_reference/src/rva_desktop/transport/udp.py:197-235 | In which cases a decrypted packet is refused, parked, skipped or committed, and that only the last two commit its sequence |
| `DesktopTransportRuns.AdmitPendingDecides` | clients/desktop_reference/src/rva_desktop/transport/udp.py:237-258 | What becomes of the parked packets when the validator admits, skips or refuses them |
| `DesktopTransportRuns.AdmitPendingWaits` | clients/desktop_reference/src/rva_desktop/transport/udp.py:237-258 | While no parked packet is known, nothing moves and a reopen is asked for if and only if one has waited longer than allowed |
| `DesktopTransportRuns.ExpireDecides` | clients/desktop_reference/src/rva_desktop/transport/udp.py:332-339 | A reopen is asked for if and only if a parked packet has waited too long; else a passed deadline gives up on a gap |
| `DesktopDownlink.SessionAlwaysAccepts` | clients/desktop_reference/src/rva_desktop/session/state.py:117-126 | In every history of the session that reads, in order, what a run of the transport made ready, the UDP sequence check passes on every frame: a frame is rejected if and only if the session is closed, the playback is neither playable nor silenced, or its timestamp is out of step with the last media event of its generation |
| `DesktopTransportRuns.AcceptedFrameLostIff` | clients/desktop_reference/src/rva_desktop/transport/udp.py:140-155 | In every reachable state an accepted packet, audio or not, is neither held, passed nor released if and only if a reopen request or a ready frame came first and the cursor had not passed it |
| `DesktopTransportRuns.AcceptedFrameCanBeLost` | clients/desktop_reference/src/rva_desktop/transport/udp.py:140-155 | A reachable state in which an accepted audio frame, or an accepted keepalive, is lost |
| `DesktopTransportRuns.LostForGood` | clients/desktop_reference/src/rva_desktop/transport/udp.py:197-205 | A committed sequence is refused whenever it arrives again |
| `DesktopSessionRuns.OneLivePlayback` | clients/desktop_reference/src/rva_desktop/session/state.py:46-220 | In every history the live table is empty or exactly the current playback, begun generations strictly increase and no start or end fact repeats |
| `DesktopSessionRuns.FinalTranscriptsAgree` | clients/desktop_reference/src/rva_desktop/session/state.py:277-282 | In every history the final-transcript set is its 64-entry deque, so evicting never fails |
| `DesktopSessionRuns.NoMediaBelowFence` | clients/desktop_reference/src/rva_desktop/session/state.py:117-158 | In every history no media event below the fence of an accepted stop is returned after it |
| `DesktopSessionRuns.CompletionIsEvidenced` | clients/desktop_reference/src/rva_desktop/session/state.py:176-220 | In every history an accepted completion was announced earlier for that very response, with the sequence of the last media event of its generation |
| `DesktopSessionAnswers.MediaDecides` | clients/desktop_reference/src/rva_desktop/session/state.py:117-158 | In every history, with a fitting sequence: a frame of the live, unstopped playback at or past the fence is returned unless the last media event of its generation leads to another timestamp (UDP: a step of 0 or no multiple of 960, modulo 2^32; WSS: any step but 960); a frame of a silenced playback is skipped; every other is rejected |
| `DesktopSessionAnswers.TimestampHeard` | clients/desktop_reference/src/rva_desktop/session/state.py:117-158 | In every history the timestamp a frame is measured against is that of the last media event of its generation |
| `DesktopSessionAnswers.FirstWasHeard` | clients/desktop_reference/src/rva_desktop/session/state.py:117-134 | In every history the first sequence remembered of a playback is that of the first media event of its generation |
| `DesktopSessionAnswers.HistoryTells` | clients/desktop_reference/src/rva_desktop/session/state.py:31-134 | In every history closed flag, fence, highest generation and expected media sequence are what the accepted operations made them, from the values of the profile on |
| `DesktopSessionAnswers.StartDecides` | clients/desktop_reference/src/rva_desktop/session/state.py:160-174 | In every history a start is accepted if and only if the playback is live, was neither started nor stopped, and the sequence is that of its first media event |
| `DesktopSessionAnswers.EndDecides` | clients/desktop_reference/src/rva_desktop/session/state.py:176-220 | In every history an end of the live playback is accepted if and only if what it claims agrees with start, last media event and announced completion |
| `DesktopSessionAnswers.TranscriptDecides` | clients/desktop_reference/src/rva_desktop/session/state.py:55-67 | In every history a transcript part is accepted if and only if its utterance is not among the last 64 final ones and its number is the count of parts before it |
| `DesktopSessionAnswers.TextDecides` | clients/desktop_reference/src/rva_desktop/session/state.py:78-85 | In every history a text is accepted if and only if its response is current and its number is the count of texts before it |
| `DesktopSessionAnswers.BeginDecides` | clients/desktop_reference/src/rva_desktop/session/state.py:68-77 | When a response begins, and the fresh playback it leaves |
| `DesktopSessionAnswers.StopDecides` | clients/desktop_reference/src/rva_desktop/session/state.py:97-112 | When a first stop, and when a repeated one, of the live playback is accepted |
| `DesktopSessionAnswers.TerminalDecides` | clients/desktop_reference/src/rva_desktop/session/state.py:86-96 | One terminal message per live playback, and what it records |
| `DesktopSessionAnswers.FinalsRemembered` | clients/desktop_reference/src/rva_desktop/session/state.py:277-282 | The newest 64 final utterances are remembered, in order |
| `DesktopSessionAnswers.EndBuries` | clients/desktop_reference/src/rva_desktop/session/state.py:176-220 | An accepted end moves the playback to the newest 64 tombstones and forgets its counters |
| `DesktopSessionAnswers.BuriedDecides` | clients/desktop_reference/src/rva_desktop/session/state.py:86-220 | Of a buried playback one terminal message may still arrive, and nothing else |
| `DesktopSessionAnswers.CloseDecides` | clients/desktop_reference/src/rva_desktop/session/state.py:46-116 | A close is accepted once, and everything after it is rejected |
| `DesktopSessionObject.SessionState.FindPlayback` | clients/desktop_reference/src/rva_desktop/session/state.py:268-275 | Finds the live playback, else the newest tombstone of the generation |
| `DesktopSessionObject.SessionState.RememberFinal` | clients/desktop_reference/src/rva_desktop/session/state.py:277-282 | Remembers a final utterance, forgetting the oldest of 64 |
| `DesktopSessionObject.SessionState.AcceptTranscriptMessage` | clients/desktop_reference/src/rva_desktop/session/state.py:55-67 | Accepts the next sequence of a transcript that is not final |
| `DesktopSessionObject.SessionState.AcceptResponseBegin` | clients/desktop_reference/src/rva_desktop/session/state.py:68-77 | Accepts only a larger generation, not below the fence, with none active |
| `DesktopSessionObject.SessionState.AcceptResponseText` | clients/desktop_reference/src/rva_desktop/session/state.py:78-85 | Accepts the next text sequence of the current response |
| `DesktopSessionObject.SessionState.AcceptResponseEnd` | clients/desktop_reference/src/rva_desktop/session/state.py:86-96 | Accepts one terminal message per known response and its announced final sequence |
| `DesktopSessionObject.SessionState.AcceptPlaybackStop` | clients/desktop_reference/src/rva_desktop/session/state.py:97-112 | Raises the fence and stops the playback; an identical repeat is silent |
| `DesktopSessionObject.SessionState.ValidateMediaAdmission` | clients/desktop_reference/src/rva_desktop/session/state.py:136-158 | Admits, skips or refuses a frame by fence, target and timestamp step |
| `DesktopSessionObject.SessionState.AcceptMediaFrame` | clients/desktop_reference/src/rva_desktop/session/state.py:117-134 | Checks the sequence, then records and returns an admitted frame |
| `DesktopSessionObject.SessionState.ReportStarted` | clients/desktop_reference/src/rva_desktop/session/state.py:160-174 | Accepts one start with the first received sequence |
| `DesktopSessionObject.SessionState.ReportEnded` | clients/desktop_reference/src/rva_desktop/session/state.py:176-220 | Accepts one end whose evidence agrees, and buries the playback |
| `Concealment.DesktopPlayback.ConcealBoundedGap` | clients/desktop_reference/src/rva_desktop/app.py:351-393 | Renders exactly the missing frames, or ends the response when the gap cannot be concealed |
| `Concealment.DesktopPlayback.PlayAudio` | clients/desktop_reference/src/rva_desktop/app.py:252-286 | Conceals, renders and remembers a received frame; nothing once the response ended |
| `Concealment.RenderingIsContinuous` | clients/desktop_reference/src/rva_desktop/app.py:252-393 | Whatever frames arrive, everything rendered for a response has strictly increasing sequences and timestamps stepping by exactly 960 modulo 2^32 |
| `Concealment.ConcealedRunsAreShort` | clients/desktop_reference/src/rva_desktop/app.py:351-393 | Among any five consecutive rendered frames one was received |
| `Concealment.GapDecides` | clients/desktop_reference/src/rva_desktop/app.py:351-393 | From the two received pairs alone: with m whole frames missing by the media clock, m at most four and no more than the sequences between, exactly m frames are concealed and the frame is rendered; in every other case the response is ended and nothing is rendered |
| `Concealment.FirstIsRendered` | clients/desktop_reference/src/rva_desktop/app.py:252-286 | The first frame of a response is rendered as it is |
| `Concealment.EndedIsSilent` | clients/desktop_reference/src/rva_desktop/app.py:252-286 | Nothing is rendered once the response was ended |

## Left out

- AES-GCM internals and key installation: the decryption and encryption outcome of each call is a parameter; authenticity means that decryption succeeded.
- Resampler.ValueMeaning: arithmetic is exact. The Python code divides in floating point; that double precision meets the error bound of `Resampler.FloatValue` for output rates below 2^35 is not modelled.
- Jitter.EmittedStrictlyIncrease: where the cursor wraps, sequences start again at 0 by the code's own arithmetic, and no order is claimed.
- UplinkRuns.NoncesNeverRepeat: speaks of successful encryptions between two configurations; a failed one keeps the counter, and that a new configuration brings a new key or salt is up to the server.
- VoiceSessionRuns.SendControlSawOneSession: callbacks are steps on an explicit stack instead of virtual calls; any callback may call any operation.
- RuntimeRuns.RunOrdered: the two tasks are interleaved at the granularity of the queue's and the session's locks; Start, JoinAndClose, event groups and the task loop itself are not modelled.
- DesktopTransportRuns.AlwaysOrderly: starts after the probe was acknowledged; the probe exchange, sockets, asyncio timeouts and the grant's refresh deadline are not modelled.
- FutureFrames.FutureFrames.Release: dropping older frames and listing those of the generation are two passes over the cells, where the source does both in one.
- UdpSessions.UdpSession.Receive: the wiping of buffers is not modelled, and its counters are updated once at the end, under the same lock; null pointers are not modelled anywhere.
- DesktopTransportObject.UdpMediaTransport.ReceiveDatagram: the refresh deadline of the grant, checked before each receive, is not modelled.
- DesktopSessionObject.SessionState.ReportEnded: playback records are values moved from the live table to the tombstones, not shared objects; message shapes and session identity are checked elsewhere.
- DeviceConfig.Config.Save: URL parsing is an arbitrary function from text to origin, and Wi-Fi settings are not modelled.
- WssOwner.CallbackEventQueue.TryPush: a failed allocation of an event's payload is not modelled.
- Concealment.DesktopPlayback.PlayAudio: target, sink ownership and fence checks before rendering, and decoding, are not modelled.
- Audio pipeline, Opus, board drivers, user interface, JSON, HTTP, WebSocket and storage adapters, release tooling: I/O, or easy members only.
- `wss_session.cc` and `session/client.py`: their admission rules overlap those of the desktop session model.
