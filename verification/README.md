# Oblireach: relay, agent stream and wire formats

Oblireach is a remote-desktop relay and agent. This project models the parts of it that carry real state,
byte-level parsing or arithmetic, and proves what they do over every run or every input:

| modules | what they model |
|---|---|
| `Sessions`, `RelayControl`, `RelayProtocol`, `RelayEpochs`, `RelayExamples` | the relay's session store, the pairing of a viewer with an agent by any number of handler goroutines, the frame queues between them, and who can meet whom |
| `EncoderModes`, `StreamEncoders` | the streaming loop: codec requests, monitor requests, frame ticks, five use-flags, five encoders, and their buffers |
| `CrossSession`, `HelperLoop`, `TwoPaths`, `PipeFraming`, `ByteStreams` | the pipe between capture helper and service, the helper's own loop, how its messages reach the browser, and whole runs beside those of the direct stream |
| `WebSocketFrames` | the agent's WebSocket codec (sections 5.2 and 5.3 of RFC 6455) |
| `AnnexB` | the H.264 AVCC to Annex B converter and the viewer's keyframe scanner (ITU-T H.264, section B.1.1) |
| `I420` | the two BGRA to I420 conversions, one that clamps and one that wraps |
| `AdaptiveBitrate`, `IdleTimers`, `Reconnect` | the controllers: bit rate, inactivity timers, reconnect backoff |
| `ViewerToken` | issuing and validating viewer tokens |
| `Runs`, `Sequences`, `Bytes`, `Wrappers` | runs of a state machine, sequence mapping, byte arithmetic, `Option` |

## How it is built

Code that changes things in place is a class or a method here too: the session entry and store, the
encoders and the streaming loop, the bit-rate controller, the stream timers, the command loop, the
conversions over arrays, the stream readers and writers. Each such method is proved equal to a function on
values (`RegisterOutcome`, `EncoderModes.Step`, `AdaptiveBitrate.Reported`, `I420.Image`, `Decode`, `Parse`,
...), and what the program promises is proved about those functions over whole runs.

The relay's handlers run concurrently. `RelayProtocol.Next` takes one step of one handler: one critical
section, one channel operation, or one exit. A run is any sequence of steps, so every theorem about `Run`
holds under every interleaving. The steps of the store and of an entry are the functions that the methods
of `Sessions.SessionStore` and `Sessions.SessionEntry` are proved against.

`Fold(step, s, evs)` in module `Runs` is the state after the events `evs`; a lemma about `Run(max, evs)`,
`RunFrom(p, evs)`, `RunOf(fs)` or `SleepAfter(history)` is a statement about every run.

## Where the code does not do what its comments say

Each of these is a theorem, not an observation by hand.

- Both pumps of a paired handler use the partner's queue (server/relay.go lines 157 and 228). Frames
  therefore never cross: what is written to a connection from a queue is what that connection sent itself
  (`OnlyEchoes`, with the run `FrameComesBack`). The closing notice for the partner stays in the same loop.
- The log line of server/relay.go line 118 slices eight bytes of the token. A shorter token makes the
  handler panic before it has deferred its removal, so its session stays for good: when no handler runs any
  more, the sessions left are exactly those with short tokens (`LeftoverSessions`, with the run
  `ShortTokenLeaks`).
- Removal is by token, not by entry (server/session.go line 81). Two handlers with one token share an entry
  if and only if no removal of the token fell between their lookups (`SameEntryExactly`), and two waiting
  peers can meet only then (`PeersMeetExactly`). A late exit can separate them (`LateExitSeparatesPeers`).
- The clean-up of the streaming loop knows only OpenH264 and the system encoder: a stream leaves an encoder
  open exactly when its last request opened VP9, H.265 or AV1 (`StreamLoop.RunThenStop`, `LeakyExactly`, with
  the run `LeaveAfterVp9`). The next stream that asks for it gets it at the old size (`ReopenLeaked`).
- After an unknown codec, after a failed monitor switch, or when both start-up initialisations fail, no
  flag is set and no encoder is open. The log speaks of JPEG, but no picture is sent until the next request
  (`SilentExactly`, `SilenceLasts`).
- The confirmation of a codec request names the codec asked for even when JPEG stands in for it
  (`RequestThenFrame`).
- The JPEG fallback reacts to empty output only. A system encoder that fails on every frame is never
  replaced (`ErrorsNeverFallBack`), yet failed frames count towards the thirty (`FailedFramesCount`);
  `FallbackExactly` gives the condition for any mixture of outcomes.
- A capture size that grew does not end the stream as the log message says; only a size that still fits the
  old buffer does (`ResizeNoticed`, `LargerSizeIgnored`).
- The cross-session path tells the browser neither about the new size after a monitor switch nor about the
  fallback to JPEG, does not answer clipboard requests, and has no inactivity warning or timeout. Otherwise
  both paths show the same (`SeenAlikeExactly`). A stream that times out stops its video, while a helper goes
  on (`DirectVideoIsFront`, with the run `IdleStreamsDiffer`).
- The C conversion keeps the low byte where the Go conversion clamps: white becomes 15 instead of 235
  (`WhitePixel`). `RoutinesAgree` gives the exact condition for equal images.
- AVCC data whose first length is 1 or in 256..511 begins like a start code and is not converted
  (`ConvertsExactlyWhen`); a unit of 261 bytes is then taken for a keyframe by its length, and a key unit of
  257 bytes is missed (`AmbiguousUnits`). The scanner overlooks a final key unit of one byte behind an empty
  unit (`ScanWithEmpty`, `EmptyUnitHides`) or behind a start code of three bytes (`MixedScanExact`).
- The browser is told a new rate whatever encoder is in use, but only OpenH264 takes it, and every encoder is
  opened at the start rate. The rate announced is the rate in use exactly when it is the start rate, or
  OpenH264 is in use and a rate was announced since it was opened (`TargetExactly`, `OtherEncodersStay`).
- The reconnect loop logs the wait before it lets the backoff grow: 2 s are announced and 3 s slept after a
  first failure. Announced and slept time agree exactly after a clean close and from the tenth failure in a
  row on (`AnnouncedExactly`).
- The flag that should suppress a second warning never does anything (`FlagNeverSuppresses`).

## Model

| member | source | states |
|---|---|---|
| Sessions.SessionEntry.Register | server/session.go:93-126 | a second peer of a role is refused and changes nothing; the second role learns of the first and leaves itself on the entry's channel; the send under the lock always finds room; a role is refused exactly when it is taken |
| Sessions.SessionEntry.constructor | server/session.go:69-73 | a new entry has no peer and an empty channel of capacity one |
| Sessions.SessionStore.GetOrCreate | server/session.go:61-78 | the same token gives the same entry; no entry is given exactly when the token is new, a limit is set and as many sessions are tracked; otherwise the token is tracked, and nothing else in the store changes |
| Sessions.SessionStore.Remove | server/session.go:81-85 | after it the token names nothing, whichever entry it named |
| Sessions.SessionStore.Count | server/session.go:53-57 | the number of tokens tracked |
| RelayControl.NeverBlocked | server/session.go:102-122 | in every state of the invariant a handler about to register finds its entry, and the send under the entry's lock does not block |
| RelayControl.ArriveKeeps | server/relay.go:90-95 | a new connection keeps the pairing invariant |
| RelayControl.EnterKeeps | server/session.go:61-78 | looking up or creating an entry keeps the pairing invariant, whether it exists, is created, or the store is full |
| RelayControl.JoinKeeps | server/session.go:93-126 | registering keeps the pairing invariant, also when the role is taken |
| RelayControl.AnnounceKeeps | server/relay.go:118-121 | the log line keeps the invariant, also when it panics on a short token |
| RelayControl.ReceiveKeeps | server/relay.go:128-140 | receiving the partner keeps the invariant, from the entry's channel or the private one |
| RelayControl.StopKeeps | server/relay.go:131-138 | timing out, cancelling or losing the connection keeps the invariant |
| RelayControl.RemoveKeeps | server/session.go:81-85 | removal by token keeps the invariant, although it may hit a newer entry |
| RelayControl.FinishKeeps | server/relay.go:182-187 | the end of the deferred clean-up keeps the invariant |
| RelayProtocol.RunGood | server/relay.go:96-233 | after any interleaving of any number of handlers the invariant of pairing, queues and histories holds |
| RelayProtocol.LookupExactly | server/session.go:61-78 | after any run a handler is turned away at its lookup if and only if its token is not tracked, a limit is set and as many sessions are tracked; otherwise it holds the entry of its token, and no other token is affected |
| RelayProtocol.JoinsExactly | server/session.go:93-126 | after any run a handler is turned away at its registration if and only if its role is taken in its entry; otherwise it comes to wait, or panics on fewer than eight characters |
| RelayProtocol.GiveUpCleansUp | server/relay.go:131-138 | a handler that gives up waiting ends, and takes its token and no other out of the store |
| RelayProtocol.HangUpCleansUp | server/relay.go:178-182 | a paired handler whose connection ends takes its token and no other out of the store and goes on to its notice |
| RelayProtocol.NoSessionLeaks | server/session.go:61-126 | every tracked session has its creator still before registration with nobody registered, or a registered peer that has yet to remove it; that handler runs, or panicked on a short token |
| RelayProtocol.CountBound | server/session.go:53-57 | the count never exceeds running plus panicked handlers; for tokens of eight characters or more it never exceeds the running ones; nor the configured maximum |
| RelayProtocol.LeftoverSessions | server/relay.go:118 | with no handler running, a session is left if and only if its token is shorter than eight characters and was ever entered |
| RelayProtocol.PairingMutual | server/relay.go:108-140 | whoever has a partner shares its entry and token in the opposite role; the partner has it too or still finds it unread on its channel; nobody else has that partner |
| RelayProtocol.RegistrationExclusive | server/session.go:93-126 | per entry at most one viewer and one agent ever register; its channel is sent to at most once; no registration blocks |
| RelayProtocol.WaitingReceives | server/session.go:100-125 | a waiting handler can receive exactly when the opposite role has registered with its entry |
| RelayProtocol.QueueOrder | server/relay.go:151-233 | per queue: frames taken are an in-order prefix of those accepted, at most 256 wait, messages read are accepted, dropped or answered pings, those dropped are exactly those that found 256 waiting, notices are counted apart |
| RelayProtocol.NoticeExactly | server/relay.go:182-187 | a handler that had a partner and has ended offered exactly one closing notice, or none if 256 frames waited at that moment |
| RelayProtocol.OnlyEchoes | server/relay.go:157-231 | every queued frame written to a connection was sent by that very connection |
| RelayProtocol.ReadStepKeeps | server/relay.go:204-232 | one turn of a reader keeps the invariant of all handlers, queues and histories |
| RelayProtocol.PumpStepKeeps | server/relay.go:151-175 | one turn of an outbound pump, delivered or not, keeps it too |
| RelayProtocol.DropsExactly | server/relay.go:227-232 | after any run a message that is not a ping is dropped if and only if 256 frames wait; otherwise it joins the queue at its end |
| RelayProtocol.MoveKeeps | server/relay.go:151-232 | a turn of either pump disturbs no other handler's queue, because no two handlers share a partner |
| RelayExamples.FrameComesBack | server/relay.go:146-231 | the run in which an agent's only frame returns to the agent and the viewer gets nothing |
| RelayEpochs.SameEntryExactly | server/session.go:61-85 | after any run two handlers with one token share an entry if and only if the token was removed equally often before their two lookups |
| RelayEpochs.AlwaysDated | server/session.go:61-85 | a handler's entry is the one its token names now if and only if the token has not been removed since the handler's lookup |
| RelayEpochs.PeersMeetExactly | server/relay.go:122-140 | two waiting peers with one token and opposite roles find each other on their channels if and only if no removal of the token fell between their lookups |
| RelayEpochs.ReceivesExactly | server/relay.go:122-140 | a waiting handler can receive if and only if a peer of its token and the opposite role looked the token up in the same epoch and registered |
| RelayExamples.ShortTokenLeaks | server/relay.go:118 | the run in which a token of three characters leaves its session behind with no handler running |
| RelayExamples.LateExitSeparatesPeers | server/session.go:81-85 | the run in which a late exit leaves a viewer and an agent with one token waiting in different entries |
| StreamEncoders.CodecEncoder.Init | agent/encode_openh264_windows.go:431-442 | on success the encoder is open with a picture buffer of the requested size; on failure nothing changes |
| StreamEncoders.CodecEncoder.Encode | agent/encode_openh264_windows.go:444-469 | every conversion meets its buffer bounds; the encoder is handed the clamped image of the frame |
| StreamEncoders.CodecEncoder.Close | agent/encode_openh264_windows.go:477-482 | closed afterwards, open or not before |
| StreamEncoders.SystemEncoder.Encode | agent/encode_windows.go:463-495 | inputs count every attempt, outputs only non-empty results; output leaves as Annex B |
| StreamEncoders.SystemEncoder.Init | agent/encode_windows.go:441-461 | open after success, unchanged after failure |
| StreamEncoders.SystemEncoder.Close | agent/encode_windows.go:533-538 | closed afterwards, open or not before |
| StreamEncoders.OneEncoder | agent/stream.go:481-563 | at every loop head at most one flag, at most one open encoder, a set flag names an open one, JPEG means the system encoder is closed, and the buffers have the size of the capture |
| StreamEncoders.StreamLoop.constructor | agent/stream.go:240-261 | start-up leaves a consistent set of flags, encoders and buffers: OpenH264 exactly if it could be opened, else the system encoder exactly if that could |
| StreamEncoders.StreamLoop.OnCodecSwitch | agent/stream.go:519-563 | from any consistent state a codec request leads to a consistent state with exactly the flag of the codec named, if it could be opened, and JPEG for "jpeg" or a known codec that could not |
| StreamEncoders.StreamLoop.OnMonitorSwitch | agent/stream.go:481-517 | from any consistent state a monitor request, failing or not, leads to a consistent state with all buffers of the new size, and OpenH264 or else JPEG exactly if the monitor was found |
| StreamEncoders.StreamLoop.OnTick | agent/stream.go:565-659 | a frame tick behaves as the one-mode machine: same branch, same message, same counters, same fallback |
| StreamEncoders.StreamLoop.Stop | agent/stream.go:255-261 | the deferred clean-up closes OpenH264 and the system encoder and leaves the other three as they are |
| StreamEncoders.StreamLoop.RunThenStop | agent/stream.go:255-261 | over any list of events, after the loop and its clean-up an encoder is open if and only if the last request handled opened VP9, H.265 or AV1, or one of these was in use before and no request came |
| StreamEncoders.LeaveAfterVp9 | agent/stream.go:255-261 | a stream that switches to VP9 and is left leaves an encoder open |
| StreamEncoders.ReopenLeaked | agent/encode_vp9_windows.go:206-207 | an encoder left open accepts the next stream's initialisation and keeps the old size |
| EncoderModes.ModeFollowsRequest | agent/stream.go:481-563 | after any run with a request, each encoder is in use if and only if the last request named its codec and it could be opened; JPEG if and only if it was named or stands in for a known codec; nothing or OpenH264 or JPEG after a monitor request |
| EncoderModes.SizeFollowsMonitor | agent/stream.go:497-499 | after any run the size is that of the last monitor found |
| EncoderModes.LeakyExactly | agent/stream.go:519-563 | after any run up to its end one of VP9, H.265 and AV1 is in use if and only if the last request opened it |
| StreamEncoders.StreamLoop.Run | agent/stream.go:449-659 | over any list of events the flags, encoders and messages of the loop are those of the one-mode machine, and every intermediate state is consistent |
| EncoderModes.SilentExactly | agent/stream.go:481-563 | the loop is without any encoder if and only if the last request was an unknown codec or a failed monitor switch, or start-up failed and none came |
| EncoderModes.SilenceLasts | agent/stream.go:638-650 | without encoder no video is sent, whatever is captured, until the next request |
| EncoderModes.SystemOnlyAtStart | agent/stream.go:240-254 | the system encoder is never used after a request |
| EncoderModes.FallbackExactly | agent/stream.go:638-650 | over ticks at the expected size with any mixture of errors, empty output and data, the fallback happens if and only if nothing had been produced and some empty output comes at the thirtieth frame put in or later, with no output before it |
| EncoderModes.FallbackAmongTicks | agent/stream.go:565-650 | the same over any ticks that do not end the loop: those that capture nothing or too large a frame count for nothing |
| EncoderModes.SwallowedFrames | agent/stream.go:642-650 | with only empty output that is: nothing was ever produced and thirty frames went in |
| EncoderModes.FailedFramesCount | agent/encode_windows.go:475-480 | failed frames count towards the thirty: one empty output behind them is enough |
| EncoderModes.ErrorsNeverFallBack | agent/stream.go:639-641 | with only errors the mode never changes and nothing is sent |
| EncoderModes.ResizeNoticed | agent/stream.go:565-574 | a run of ticks ends if and only if some tick captures at another size whose frame fits the buffer |
| EncoderModes.LargerSizeIgnored | agent/capture_windows.go:468-477 | ticks that all capture too large a frame leave everything as it is, send nothing and never end the loop |
| EncoderModes.LeftStaysLeft | agent/stream.go:570-574 | nothing is sent once the loop has been left |
| CrossSession.Retag | agent/remote_session_windows.go:700-727 | each pipe message becomes the one browser message its type stands for, or none |
| CrossSession.RelayHelper | agent/remote_session_windows.go:680-742 | reads to the first failure and forwards every message before it, in order |
| CrossSession.OneMessage | agent/remote_session_windows.go:500-553 | re-tagging a helper message gives exactly the direct path's message, or nothing for the kinds that only the direct path sends |
| CrossSession.ThroughPipeExactly | agent/remote_session_windows.go:500-742 | tagging, sending, receiving and re-tagging give the browser the direct path's messages byte for byte, without the kinds that only the direct path sends |
| CrossSession.CutAtOversized | agent/remote_session_windows.go:180-183 | with a message above 8 MiB the browser gets what came before it and then nothing |
| CrossSession.PathsAgree | agent/remote_session_windows.go:700-742 | for one list of things said, both paths tell the browser the same if and only if none is a re-init, a fallback notice, a clipboard answer, an inactivity warning or an inactivity timeout |
| CrossSession.SameVideo | agent/stream.go:576-659 | for one list of things said, the binary messages, video and audio, are always those of the direct path |
| CrossSession.LostTurns | agent/remote_session_windows.go:419-542 | what a turn of the encoder loop says is lost across the pipe if and only if it is a successful monitor switch, or an empty output at the thirtieth frame or later of a system encoder that never produced |
| HelperLoop.HelperTick | agent/remote_session_windows.go:454-553 | on the flags and encoders of a consistent state the helper's frame tick leaves a consistent state and writes the messages of the helper's step |
| HelperLoop.HelperCodecSwitch | agent/remote_session_windows.go:443-482 | the helper's own codec branch keeps flags and encoders consistent and follows the helper's step |
| HelperLoop.HelperMonitorSwitch | agent/remote_session_windows.go:409-441 | so does its monitor branch, also when the monitor is not found |
| HelperLoop.SameStep | agent/remote_session_windows.go:409-553 | one turn of the helper leads to the state of the direct loop and writes the pipe message for its emission |
| TwoPaths.HelperAgrees | agent/remote_session_windows.go:396-553 | fed the same happenings, the helper passes through the states of the direct loop, ends at the same turn and writes the pipe messages of what the direct stream says, as long as no inactivity timeout is handled; from the timeout on it may write more |
| TwoPaths.DirectVideoIsFront | agent/stream.go:464-468 | the video and audio the browser sees directly are a front part of what it sees through pipe and service, and all of it unless an inactivity timeout was handled |
| TwoPaths.SeenAlikeExactly | agent/stream.go:384-389 | over any run the browser sees exactly the same on both paths if and only if the direct stream handled no successful monitor switch, no fallback, no clipboard request and no inactivity warning or timeout |
| TwoPaths.RequestThenFrame | agent/stream.go:530-639 | from any state, after a codec request and a frame the browser gets the name asked for, and the output behind 0x02 for H.264, 0x03 for VP9, 0x04 for H.265, 0x05 for AV1 if it could be opened, and 0x01 for JPEG |
| TwoPaths.MonitorThenFrame | agent/stream.go:493-518 | after a monitor request and a frame it gets the new size and H.264, or JPEG if OpenH264 could not be opened |
| TwoPaths.FallbackThenFrame | agent/stream.go:644-650 | after the fallback it gets the notice for "jpeg" and then JPEG |
| TwoPaths.SystemFrames | agent/stream.go:638-659 | output of the system encoder goes out as H.264 in Annex B form |
| TwoPaths.NothingToSend | agent/stream.go:584-639 | failed or empty output of any other encoder is never sent |
| TwoPaths.SaidBeside | agent/stream.go:324-331 | sound goes out behind 0x06, which no video has; blocks, clipboard answers and the inactivity warning have their own documents |
| TwoPaths.DirectFollowsLoop | agent/stream.go:449-659 | without a timeout the direct stream goes through the states of the loop fed the common events |
| TwoPaths.IdleStreamsDiffer | agent/stream.go:464-468 | after a timeout the next frame is seen through the pipe only |
| PipeFraming.PipeSend | agent/remote_session_windows.go:161-172 | an open pipe receives exactly the framed message, a closed one nothing |
| PipeFraming.PipeRecv | agent/remote_session_windows.go:174-191 | takes one message off the pending bytes however they arrive, or reports the oversized length or the kind of shortage |
| PipeFraming.ChatPipeRecv | agent/chat.go:322-336 | the same without the cap |
| PipeFraming.SentBytes | agent/remote_session_windows.go:162-164 | a message is written as four length bytes, least significant first, its type and its payload |
| PipeFraming.ReceivedBytes | agent/remote_session_windows.go:174-191 | any five bytes and what follows them are read as those say: refused above 8 MiB, short, or a message and the rest |
| PipeFraming.RoundTrip | agent/remote_session_windows.go:161-191 | a message comes back whole, leaving what follows it, if and only if it fits 32 bits and the cap |
| PipeFraming.OversizedRefused | agent/remote_session_windows.go:180-183 | a message above the cap is refused with its length after the header alone |
| PipeFraming.ReceiveAllSent | agent/remote_session_windows.go:161-191 | receiving a whole list returns what precedes the first message above the cap, and then its refusal |
| PipeFraming.ListRoundTrip | agent/chat.go:308-336 | the whole list comes back with nothing left if and only if no message is above the cap |
| PipeFraming.ReceiversAgree | agent/chat.go:322-336 | the capped and the uncapped receiver agree if and only if the announced length is at most 8 MiB; above it only the capped one refuses |
| PipeFraming.ParseConsumes | agent/remote_session_windows.go:174-191 | what is received and what remains, framed again, are the bytes that were pending |
| ByteStreams.Source.ReadFull | agent/remote_session_windows.go:176-189 | the result depends on the pending bytes alone, not on how they are split into reads |
| WebSocketFrames.ReadFrame | agent/websocket.go:132-178 | reads exactly the frame at the front of the pending bytes, or reports the shortage |
| WebSocketFrames.WriteFrame | agent/websocket.go:180-213 | writes exactly the encoding of the frame under the given mask key |
| WebSocketFrames.ApplyMask | agent/websocket.go:171-175 | XORs every byte in place with the key byte of its position |
| WebSocketFrames.RoundTrip | agent/websocket.go:132-213 | for every key, length and following bytes a written frame is read back, with its opcode cut to four bits |
| WebSocketFrames.RoundTripExact | agent/websocket.go:184 | the frame comes back unchanged if and only if its opcode is below 16 |
| WebSocketFrames.ListRoundTrip | agent/websocket.go:132-213 | reading the concatenation of written frames returns exactly that list and consumes every byte |
| WebSocketFrames.WrittenBytes | agent/websocket.go:183-210 | every frame written has the final bit and its opcode, the mask bit and the shortest length, the key, and the payload combined with the key bit by bit |
| WebSocketFrames.PlainRead | agent/websocket.go:132-178 | an unmasked frame, as a server sends it, is read back whole for every opcode below 16, length and following bytes |
| WebSocketFrames.LooselyRead | agent/websocket.go:137-159 | so is one with any upper four bits in its first byte, or with its length in a longer form than needed |
| WebSocketFrames.WireRoundTrip | agent/websocket.go:132-213 | any list that mixes masked and unmasked frames is read back exactly and every byte is consumed |
| WebSocketFrames.PlainPrefixIncomplete | agent/websocket.go:132-178 | no proper prefix of an unmasked frame is taken for a frame |
| WebSocketFrames.DecodeStable | agent/websocket.go:132-178 | bytes behind a complete frame do not change how it is read |
| WebSocketFrames.PrefixIncomplete | agent/websocket.go:132-178 | no proper prefix of a written frame is taken for a frame |
| WebSocketFrames.MinimalLength | agent/websocket.go:186-195 | no byte string that reads as the same frame is shorter, apart from the mask key |
| WebSocketFrames.LengthFieldRead | agent/websocket.go:186-195 | the written length field, short, 16-bit or 64-bit, reads back as the length |
| WebSocketFrames.MaskTwice | agent/websocket.go:171-175 | masking twice with one key is the identity |
| AnnexB.EnsureAnnexB | agent/encode_windows.go:501-531 | the loop computes the conversion of the whole input, or returns it unchanged at the first bad length |
| AnnexB.EnsuredExactly | agent/encode_windows.go:501-531 | input without start code that parses as AVCC, up to three stray bytes, becomes the same units behind start codes; every other input, and every input of fewer than five bytes, is unchanged |
| AnnexB.EnsuredIdempotent | agent/encode_windows.go:501-531 | converting twice is converting once, and at most three bytes are lost |
| AnnexB.ConvertsExactlyWhen | agent/encode_windows.go:505-509 | an AVCC list is converted to the same units if and only if its first length is neither 1 nor in 256..511, or all units have one byte |
| AnnexB.IsH264Keyframe | client-app/ui.go:400-412 | the loop with its jumps of 4 and 5 answers as the recursive scan of the whole input |
| AnnexB.ScanFindsUnits | client-app/ui.go:405-409 | from a start code, or from its second byte, where a jump over an empty unit lands, the scan sees exactly the units of the stream but a last one-byte unit behind an empty one |
| AnnexB.ScanExact | client-app/ui.go:400-412 | on a stream of non-empty units the answer is yes if and only if one has type 5, 7 or 8 |
| AnnexB.EmptyUnitHides | client-app/ui.go:403-409 | with an empty unit the answer can be wrong |
| AnnexB.ScanSound | client-app/ui.go:400-412 | on any bytes, yes means that a start code with a keyframe type behind it is there |
| AnnexB.ScanWithEmpty | client-app/ui.go:400-412 | with empty units allowed, the answer is yes if and only if there is a key unit other than a last one of one byte behind an empty one |
| AnnexB.AnyStreamScanned | client-app/ui.go:400-412 | on any stream, with start codes of three and four bytes and with empty units, the answer is yes if and only if the scanner comes to look at the type of a key unit; where it comes to each unit is followed from the units before it |
| AnnexB.MixedScanExact | client-app/ui.go:400-412 | on a stream of non-empty units that mixes start codes of three and four bytes, the answer is yes if and only if there is a key unit other than a last one of one byte behind a start code of three bytes that no zero byte lengthens |
| AnnexB.ConvertThenScan | agent/encode_windows.go:501-531 | AVCC output, converted by the agent and scanned by the viewer, is a keyframe if and only if it holds a key unit, provided the first length is neither 1 nor in 256..511 or all units have one byte; with a first length in 256..511 the answer is yes if the length minus 256 is a key type, and otherwise that of the bytes behind the length; with a first length of 1 it is that of the first unit and the bytes behind it |
| AnnexB.KeyTypeExactly | client-app/ui.go:409 | a header byte marks a keyframe if and only if its five-bit type is 5, 7 or 8, whatever its other three bits |
| AnnexB.ScanByType | client-app/ui.go:400-412 | on a stream of non-empty units the answer is yes if and only if one has type 5, 7 or 8 in its header fields |
| AnnexB.ConvertThenScanByType | agent/encode_windows.go:501-531 | the same behind the converter, for every list whose first length is unambiguous |
| AnnexB.AnyStreamByType | client-app/ui.go:400-412 | the same on any stream, for the units the scanner comes to look at |
| AnnexB.UsualHeaders | client-app/ui.go:405-409 | 0x65, 0x67 and 0x68 behind a start code are recognised, 0x41 is not |
| AnnexB.SingleUnit | agent/encode_windows.go:505-509 | a single unit is judged by its type, unless its length lies in 256..511: then by the low byte of the length |
| AnnexB.AmbiguousUnits | agent/encode_windows.go:505-509 | a unit of 261 bytes and type 1 passes for a keyframe, one of 257 bytes and type 5 does not |
| I420.BgraToI420 | agent/encode_openh264_windows.go:485-526 | for every width and height the buffer holds the clamped image, and the bytes behind it are untouched |
| I420.BgraToI420Wrapping | agent/encode_windows.go:29-59 | the same for the wrapping image |
| I420.LumaByte | agent/encode_openh264_windows.go:491-501 | every pixel has its own byte in the Y plane, at its row and column |
| I420.ChromaBytes | agent/encode_openh264_windows.go:503-525 | every 2x2 block has its own byte in the U and in the V plane, at odd sizes too |
| I420.LumaRounds | agent/encode_openh264_windows.go:491-501 | each Y byte is 77, 150 and 29 parts of red, green and blue of its own pixel, rounded to the nearest 256th, above 16, at most 235 in one routine and cut to a byte in the other |
| I420.ChromaRounds | agent/encode_openh264_windows.go:503-525 | each U and V byte is the rounded weighted sum of its own block's means, above 128, at most 255 in one routine and cut to a byte in the other |
| I420.ClampedRanges | agent/encode_openh264_windows.go:496-523 | Y stays in 16..235, U and V in 1..255 |
| I420.GreyIsNeutral | agent/encode_openh264_windows.go:508-512 | grey blocks have U = V = 128 in both routines |
| I420.LumaAgrees | agent/encode_windows.go:37-42 | the Y bytes of both routines agree if and only if the value is at most 235, that is, the pixel is not bright |
| I420.ChromaAgrees | agent/encode_windows.go:44-58 | the chroma bytes of both routines agree if and only if the block's mean is not pure blue, respectively pure red |
| I420.RoutinesAgree | agent/encode_windows.go:29-59 | both routines give the same image if and only if no pixel is bright and no block is pure blue or pure red |
| I420.WhitePixel | agent/encode_windows.go:40 | white is 235 in one and 15 in the other |
| AdaptiveBitrate.Controller.Report | agent/stream.go:79-113 | keeps the rate within its bounds and moves rate, counters and announcement as specified |
| AdaptiveBitrate.RaisedExactly | agent/stream.go:99 | the raise is one of exactly the integers within the rounding error of x times 1.4 |
| AdaptiveBitrate.RunInvariant | agent/stream.go:79-113 | after any run the rate is in 1..100 Mbps, equals the last announced value or the start rate, and the counters cover the frames since the last decision |
| AdaptiveBitrate.WindowDecides | agent/stream.go:87-104 | over fifteen frames no slow one raises by 1.4 within the rounding error, one to three hold, four or more halve, within 1 and 100 Mbps, and only a change is announced |
| AdaptiveBitrate.CeilingIn14 | agent/stream.go:97-104 | fourteen clean windows reach the ceiling from anywhere, whatever the rounding; thirteen never do from the floor |
| AdaptiveBitrate.FloorIn7 | agent/stream.go:94-104 | seven congested windows reach the floor from anywhere; six never do from the ceiling |
| AdaptiveBitrate.CleanRunReachesCeiling | agent/stream.go:79-113 | 224 clean frames in a row reach the ceiling after any history |
| AdaptiveBitrate.OneFrameLess | agent/stream.go:79-113 | 223 do not: after a slow frame that opens a window at the floor the rate stays below the ceiling |
| AdaptiveBitrate.CongestedRunReachesFloor | agent/stream.go:79-113 | 119 frames with four or more slow ones among any fifteen in a row reach the floor after any history |
| AdaptiveBitrate.TargetExactly | agent/stream.go:438-445 | after any run of frames and encoder changes the rate in use is the rate announced last if and only if that is the start rate, or OpenH264 is in use and a rate was announced since it was opened |
| AdaptiveBitrate.OtherEncodersStay | agent/stream.go:438-445 | after fifteen clean frames through another encoder 28 Mbps are announced and 20 Mbps in use |
| IdleTimers.StreamTimers.ResetIdleTimer | agent/stream.go:420-430 | stop, drain and reset of both timers |
| IdleTimers.StreamTimers.OnWarningTick | agent/stream.go:455-462 | consumes the tick and sends a warning unless one was sent |
| IdleTimers.StreamTimers.OnIdleTick | agent/stream.go:464-468 | consumes the tick and ends the loop |
| IdleTimers.NeverEarly | agent/stream.go:411-430 | the timeout is handled no earlier than ten minutes after the last activity; at most one warning in between, not before nine and a half |
| IdleTimers.NoStaleTick | agent/stream.go:420-430 | right after an activity both channels are empty and both timers run in full |
| IdleTimers.NeverLost | agent/stream.go:464-468 | from ten minutes after the last activity on, the tick is there or the runtime's next turn brings it, and handling it ends the loop |
| IdleTimers.WarningNeverLost | agent/stream.go:455-462 | from nine and a half minutes on the warning has been sent, or the runtime's next turn brings it |
| IdleTimers.NotReadyBefore | agent/stream.go:464-468 | before that no turn of the runtime can end the loop |
| IdleTimers.FlagNeverSuppresses | agent/stream.go:456 | whenever a warning tick waits, the flag is clear |
| Reconnect.CommandLoop.SessionEnded | agent/cmd_ws.go:75-96 | the announced wait, the sleep and the new backoff after one session |
| Reconnect.AnnouncedExactly | agent/cmd_ws.go:80-94 | over any history the wait logged last equals the sleep if and only if the session closed cleanly or at least ten failures stand in a row; it is never longer |
| Reconnect.ClosedForm | agent/cmd_ws.go:75-96 | after n failures in a row the sleep is min(60 s, 2 s times 1.5 to the n), and it is 60 s if and only if n is at least 9 |
| Reconnect.SleepBounds | agent/cmd_ws.go:47-49 | the sleep stays within 2..60 s, never falls on a failure, and is 2 s after a clean close |
| ViewerToken.IssuedThenValidated | server/signal.go:66-70 | a token issued at any 64-bit clock reading for a dot-free session token validates to it through its expiry second, and is expired afterwards |
| ViewerToken.DottedNeverValidates | server/auth.go:32-35 | one for a session token with a dot is always malformed |
| ViewerToken.AcceptedExactly | server/auth.go:31-56 | a token is accepted if and only if it is a session token, an unexpired expiry and the hexadecimal digits of the hash of these two under the secret |
| ViewerToken.OtherSecret | server/auth.go:37-44 | a token issued under one secret and read under another before its expiry is accepted if and only if both secrets give the same hash of token, dot and expiry; otherwise its signature is refused |
| ViewerToken.HexInjective | server/signal.go:76 | different hashes have different signatures, twice as long as the hash |
| ViewerToken.HexSpells | server/signal.go:76 | a signature spells every byte of the hash in two hexadecimal digits |
| ViewerToken.DecimalDigits | server/signal.go:67 | the expiry is printed in decimal |
| ViewerToken.ScanLoosely | server/auth.go:48-51 | the expiry may have a sign, a space in front and anything but a digit behind; only what does not fit 64 bits is refused |
| ViewerToken.PrintScan | server/auth.go:48-51 | scanning a printed 64-bit number gives it back, and the print has no dot |
| ViewerToken.SplitJoin | server/auth.go:32 | joining the pieces of a split gives the string back, and no piece has a dot |
| ViewerToken.HexDotFree | server/signal.go:72-77 | a signature never has a dot |
| ViewerToken.TtlExact | server/signal.go:67 | the lifetime granted is the one asked for if and only if it fits 64-bit nanoseconds |
| ViewerToken.EndpointLifetime | server/signal.go:54-59 | the endpoint's tokens expire the seconds asked for after the second of issue, if these are between one and 86400, and 3600 seconds after it otherwise |

## Left out

- Screen capture, audio capture, input injection, clipboard, toasts, service and session enumeration: calls into the operating system.
- What codecs produce: OpenH264, the Windows encoder, libvpx, SVT-AV1, x265 and JPEG give arbitrary bytes or fail.
- TCP and TLS, the HTTP handshake, JSON encoding and the internals of the relay's WebSocket library: messages are values, documents go through an arbitrary marshalling function.
- HMAC and SHA-256: an arbitrary function from data and secret to bytes.
- In the relay modules a character of a token stands for one byte.
- The relay's control messages (`waiting`, `paired`, `pong`) and its idle timer: the first go straight to a connection and past the queues, the second only closes a connection, which is the hang-up step.
- Liveness of pairing: that a peer which can receive does so in time depends on the scheduler.
- PipeFraming.PipeSend: does not model a write that fails half-way, nor two goroutines whose pairs of writes interleave on one pipe (audio and video share it without a lock).
- PipeFraming.PipeRecv: does not model a read deadline that strikes inside a message, after which the source reads on from the middle.
- CrossSession.ThroughPipeExactly: leaves out the bitrate messages, which depend on each path's own clock, the start-up messages (first init, capture error), and browser writes that fail.
- TwoPaths.SeenAlikeExactly: leaves out the same; it takes the timeout's document to differ from every other document, and the handling of the inactivity ticks as events whose times are those of IdleTimers.
- WebSocket fragmentation (section 5.4 of RFC 6455) and control frames: the code does not treat them in this codec.
- WebSocketFrames.WriteFrame: takes the mask key as a parameter; the failure of the random source is left out.
- StreamEncoders.StreamLoop.Run: the encoders' globals belong to one loop; two streams at a time would share them.
- StreamEncoders.StreamLoop.constructor: starts with every encoder closed; a stream that inherits an encoder left open is not followed beyond `ReopenLeaked`.
- StreamEncoders.CodecEncoder.Init: takes the four library codecs as one class, with the buffer handling of OpenH264; rates and quality settings are left out.
- StreamEncoders.SystemEncoder.Encode: the C code's own state behind the open flag is the size it was configured for, nothing else.
- The JPEG encoder has no state in the source; its tick takes the outcome as a parameter.
- IdleTimers.NoStaleTick: takes the firing of a timer as one step; the Go 1.22 runtime marks a timer as done shortly before it puts the tick on the channel, and a reset between the two would find nothing to drain.
- IdleTimers.NeverEarly: rests on the same step.
- IdleTimers.FlagNeverSuppresses: rests on the same step; a tick that landed after a reset would set the flag early and suppress the next warning.
- IdleTimers.NeverLost: says what the next turn of the runtime brings, not when the runtime takes it.
- AdaptiveBitrate.RaisedExactly: floating point is replaced by the exact quotient or the integer below it; both roundings are allowed at every raise.
- Configuration, updates, installation, key tables, the viewers and the chat windows: plumbing and user interface.
