# VoxType verification model

A Dafny 4.11 model of the parts of VoxType that must not go wrong quietly, with
proofs about every input, run or interleaving. `dafny verify dfyconfig.toml`
checks it all.

VoxType records dictation, asks a chain of speech providers for a transcript and
inserts the text into the focused application. Six components are modelled,
each in the form the program gives it: objects with mutable fields are classes,
loops are loops with invariants, pure code is functions. A class is proved to do
exactly what a specification function on values says, and the laws are lemmas
about every sequence of such steps.

* **Doubao session and driver, and the route runner above them**
  (`DoubaoSession`, `DoubaoSessionLaws`, `DoubaoOutcome`, `DoubaoRunner`,
  `DoubaoAdapter`, `Routing`, `Providers`). The socket accepts, refuses, delays or closes and
  delivers any bytes at any time; the clock is any nondecreasing one that
  reaches the total timeout after finitely many readings. What the socket, the
  encoder and the clock did is recorded, and success and failure of an attempt
  are tied to that record. The privacy result
  joins four layers: the driver never has audio in a write buffer while its
  evidence is NotAccepted; an authentication error comes before any audio; so
  the token retry uses a second connection only when the first is clean; and a
  route goes on to another provider only after NotAccepted.
* **Wire codec and framing** (`Protobuf`, `PcmFraming`, `Utf8`, `Decimal`).
  The format is that of the Protocol Buffers Encoding specification, sections
  "Base 128 Varints", "Message Structure" and "Last One Wins".
* **Fcitx bridge and its client** (`FcitxWire`, `FcitxBridge`,
  `FcitxBridgeLaws`, `FcitxOutcomes`, `FcitxContext`). A run is any sequence of datagrams,
  deferred turns and changes of focus, security and liveness of contexts.
* **Text cleanup** (`CleanupRules`, `CleanupMeaning`, `Cleanup`, `CleanupBytes`, `CleanupSafe`,
  `CleanupEmission`, `CleanupSecondPass`, `CleanupTokens`, `CleanupStable`,
  `CleanupTwice`, `Fingerprint`). Scanners address text by character; the edits
  are byte ranges, and the two are proved to agree. `CleanupEmission` reads the
  selected edits of all rules as one scan, from which `CleanupSecondPass` and
  `CleanupStable` decide when a second cleanup changes nothing. The fingerprint
  is 64-bit FNV-1a of draft-eastlake-fnv, section 2.
* **Voice detection and level kernels** (`Levels`, `Vad`, `VadLaws`, `VadTrim`,
  `Calibration`).
* **Application core and daemon** (`CoreSession`, `AppLifecycle`,
  `ProviderLedger`, `AppController`, `Daemon`, `DaemonLaws`, `DaemonOutcomes`).
  Capture, the
  worker thread and the insertion adapter answer through parameters.

Where the code is weaker than one might expect, the weaker truth is proved
together with the exact condition or an input that shows it:
`EvidenceFallsExactly`, `FinishedBreaksExactly`, `SecondResultExactly`,
`TextReachesItsOwnContext` with `ArmWhilePendingRedirects`, `LiveRootExact` with
`LiveRootOfThirty`, `MetricsWithinPeak` with `LongFrameExceedsPeak`,
`SuggestionSeparates`, `TranscriptIsCommitted` with `OnlyCancellingFrees` and
`InsertedButStuck` (a nearly full event queue leaves a session inserting after its
text was inserted), and for the cleanup, which is not idempotent, `StableWhen`
and `StableExactly` with the three inputs of `CleanupTwice`.

The comment on `StreamingVad` (src/vad.rs:65-71) says that noise is updated only
while speech is inactive and the frame is below the entry threshold. The code
also learns from the silent frame that ends a segment (src/vad.rs:182-188); the
model follows the code.

## Model

| member | source | states |
|---|---|---|
| DoubaoRunner.TranscribeWithTokenRefresh | crates/voxtype-provider-doubao/src/runner.rs:93-116 | a second attempt is made exactly when the first was refused for its credentials with NotAccepted, was not cancelled and the refresh gave a token; it then uses that token and its answer is returned; a failed refresh is returned as its error with NotAccepted; otherwise the first answer stands; over both connections audio enters at most one write buffer, and none when the result reports NotAccepted |
| DoubaoRunner.TranscribePcm | crates/voxtype-provider-doubao/src/runner.rs:68-165 | an attempt opens a connection exactly when nothing hinders it and otherwise answers its first obstacle; the connection takes a beginning of the session's requests with the given token and the messages it delivers go to the session in order; success means all requests were written and the result is what the provider reported; a failure has its cause in what happened outside or in what was received, and carries the session's own evidence |
| DoubaoRunner.PreparePcm | crates/voxtype-provider-doubao/src/runner.rs:462-491 | a recording is accepted exactly when it opens, is not empty, has at most one hour of samples and no half sample; a missing one is retryable, a malformed one is not |
| DoubaoRunner.SessionDriver.Run | crates/voxtype-provider-doubao/src/runner.rs:179-256 | for any socket behaviour and any nondecreasing clock: on success the frames of the zero-padded recording were encoded in order, exactly the session's requests were written, each audio request with its frame's packet and none before its time, and text, voice marks and interim count are those the provider reported; a failure is excused by cancellation, a deadline passed, the connection, the encoder, the recording, the clock or a refused message; a finished session always has its outcome |
| DoubaoRunner.SessionDriver.SendRecording | crates/voxtype-provider-doubao/src/runner.rs:200-226 | the frame loop ends, and ends well only after every frame was encoded and its request written, in order and not before its time |
| DoubaoRunner.SessionDriver.SendFrame | crates/voxtype-provider-doubao/src/runner.rs:204-225 | one frame makes one written and confirmed audio request that carries the frame's packet, its time and its place; a failure is excused |
| DoubaoRunner.SessionDriver.OpenSession | crates/voxtype-provider-doubao/src/runner.rs:186-198 | opening writes StartTask and StartSession with the token and the session JSON and ends in Streaming with nothing sent yet |
| DoubaoRunner.SessionDriver.CloseSession | crates/voxtype-provider-doubao/src/runner.rs:228-240 | closing writes the end marker and FinishSession and ends in Finished with the frame count unchanged |
| DoubaoRunner.SessionDriver.SendPayload | crates/voxtype-provider-doubao/src/runner.rs:270-323 | on success exactly this payload was queued and has left the buffer; audio in the write buffer means the evidence is no longer NotAccepted, whether the queue is full, the flush is pending or the socket closes; a sent audio payload is confirmed once; a failure is excused |
| DoubaoRunner.SessionDriver.QueuePayload | crates/voxtype-provider-doubao/src/runner.rs:270-323 | before an audio payload may enter the buffer the evidence is already ambiguous on every failing path |
| DoubaoRunner.SessionDriver.FlushOnce | crates/voxtype-provider-doubao/src/runner.rs:325-338 | flushing only pumps inbound messages meanwhile and consumes a clock reading |
| DoubaoRunner.SessionDriver.PumpOnce | crates/voxtype-provider-doubao/src/runner.rs:372-398 | an inbound message goes to the session and neither sends, confirms nor takes back anything; interim results are counted and the outcome is kept; a failure is that of the connection or the session's objection |
| DoubaoRunner.SessionDriver.DrainInbound | crates/voxtype-provider-doubao/src/runner.rs:363-370 | draining stops and leaves what was sent untouched |
| DoubaoRunner.SessionDriver.WaitForPhase | crates/voxtype-provider-doubao/src/runner.rs:340-351 | waiting ends in the expected phase or fails by its deadline |
| DoubaoRunner.SessionDriver.WaitForSendSlot | crates/voxtype-provider-doubao/src/runner.rs:353-361 | waiting ends well not before the frame's time and leaves what was sent untouched |
| DoubaoRunner.SessionDriver.CheckDeadlines | crates/voxtype-provider-doubao/src/runner.rs:400-427 | cancellation is reported before the clock is read and always when it was seen, the total timeout only from the horizon on, the phase timeout only from its deadline; a passed check used up one of the finitely many readings |
| DoubaoAdapter.Recognize | src/provider_adapters.rs:239-258 | the answer is the transcript or failure of the last attempt, the refresh error, or the first thing that prevented an attempt; and one attempt, bootstrap and reconnect included, keeps the contract the router relies on: audio on at most one connection, and on none when it reports NotAccepted |
| DoubaoAdapter.RunRoute | crates/voxtype-app/src/provider.rs:151-247 | a whole route, each adapter asked only when it is reached: without consent to replay, audio enters the write buffer of at most one connection of all the route opens, and of none when the last attempt reports NotAccepted |
| Routing.RunRecognitionRoute | crates/voxtype-app/src/provider.rs:151-247 | the attempts are exactly those of a prefix of the route, each recorded with its own evidence; every attempt but the last was a retryable, transient failure after which replay was allowed; the outcome is the last attempt's transcript or error, or the cancellation |
| Routing.AudioReachesOneConnection | crates/voxtype-app/src/provider.rs:151-247 | without consent to replay buffered audio, over any fallback route audio reaches at most one connection; when the last attempt reports NotAccepted it reached none |
| Routing.HealthyKeepsOrder | crates/voxtype-core/src/routing.rs:67-91 | a plan picks the healthy providers in policy order and leaves out only unhealthy ones |
| DoubaoSession.DoubaoSessionProtocol.StartTask | crates/voxtype-provider-doubao/src/session.rs:143-162 | starting hands out StartTask only from Disconnected, otherwise fails the session |
| DoubaoSession.DoubaoSessionProtocol.StartSession | crates/voxtype-provider-doubao/src/session.rs:164-196 | StartSession is handed out only after TaskStarted and only for a bounded JSON object |
| DoubaoSession.DoubaoSessionProtocol.AudioRequest | crates/voxtype-provider-doubao/src/session.rs:198-240 | an audio request is First for the first frame and Middle later, and is refused while another waits for its confirmation |
| DoubaoSession.DoubaoSessionProtocol.ConfirmAudioSent | crates/voxtype-provider-doubao/src/session.rs:242-263 | a confirmation counts the pending frame and sets the evidence to PossiblyAccepted |
| DoubaoSession.DoubaoSessionProtocol.MarkAudioWriteAmbiguous | crates/voxtype-provider-doubao/src/session.rs:265-280 | an ambiguous write keeps the frame pending and sets the evidence to PossiblyAccepted |
| DoubaoSession.DoubaoSessionProtocol.FinishAudio | crates/voxtype-provider-doubao/src/session.rs:282-312 | the last-frame marker needs at least one confirmed frame and none pending |
| DoubaoSession.DoubaoSessionProtocol.FinishSession | crates/voxtype-provider-doubao/src/session.rs:314-334 | FinishSession is handed out only after the last-frame marker |
| DoubaoSession.DoubaoSessionProtocol.CancelSession | crates/voxtype-provider-doubao/src/session.rs:424-428 | cancelling moves any session that is neither finished nor failed to Cancelled |
| DoubaoSession.DoubaoSessionProtocol.HandleBinary | crates/voxtype-provider-doubao/src/session.rs:343-422 | a provider message moves the session exactly by the step of its decoded envelope, and an undecodable one fails it |
| DoubaoSession.DoubaoSessionProtocol.HandleRecognition | crates/voxtype-provider-doubao/src/session.rs:430-483 | a stale packet number changes nothing; a fresh result updates number, voice flags and evidence; a blank final fails the session |
| DoubaoSession.DoubaoSessionProtocol.HandleSessionFinished | crates/voxtype-provider-doubao/src/session.rs:485-505 | the session finishes only from Finishing and only with a final transcript |
| DoubaoSession.DoubaoSessionProtocol.RequirePhase | crates/voxtype-provider-doubao/src/session.rs:518-528 | any call in the wrong phase fails the session, except a cancelled one, which stays cancelled |
| DoubaoSessionLaws.RequestsFollowScript | crates/voxtype-provider-doubao/src/session.rs:143-334 | for every interleaving of calls and provider bytes, the requests handed out are a prefix of StartTask, StartSession, First, Middle*, Last, FinishSession |
| DoubaoSessionLaws.PhasesAdvance | crates/voxtype-provider-doubao/src/session.rs:343-428 | over every run the phase rank never decreases, Failed and Cancelled absorb, the evidence never returns to NotAccepted and the packet number never decreases |
| DoubaoSessionLaws.AtMostOneFinish | crates/voxtype-provider-doubao/src/session.rs:485-505 | at most one Finished event occurs in a run |
| DoubaoSessionLaws.FinishedOutcome | crates/voxtype-provider-doubao/src/session.rs:485-505 | a Finished outcome has a non-blank transcript, at least one confirmed frame and evidence other than NotAccepted |
| DoubaoSessionLaws.AuthenticationPrecedesAudio | crates/voxtype-provider-doubao/src/session.rs:343-422 | every Authentication error of a session comes with NotAccepted and no frame sent, which is what makes the token retry safe |
| DoubaoSessionLaws.PacketsIncrease | crates/voxtype-provider-doubao/src/session.rs:430-483 | the packet numbers of accepted results strictly increase |
| DoubaoSessionLaws.RedeliveryIsHarmless | crates/voxtype-provider-doubao/src/session.rs:430-483 | redelivering an accepted numbered result at any later point of any run leaves the state unchanged: ignored while the session listens, refused afterwards |
| DoubaoSessionLaws.RunKeepsInv | crates/voxtype-provider-doubao/src/session.rs:99-140 | before Streaming nothing is sent and nothing accepted; sent frames imply evidence; Finishing implies the audio was ended |
| DoubaoSessionLaws.EvidenceFallsExactly | crates/voxtype-provider-doubao/src/session.rs:242-280 | evidence is not monotone: it falls exactly when a pending frame is confirmed or marked ambiguous after the provider was already heard to accept audio |
| DoubaoSessionLaws.EvidenceFallIsReached | crates/voxtype-provider-doubao/src/session.rs:242-263 | the fall happens in a run from a fresh session: text is heard while the first frame is pending, then the frame is confirmed |
| DoubaoSessionLaws.FinishedBreaksExactly | crates/voxtype-provider-doubao/src/session.rs:507-544 | a finished session is failed by any further sending call and moved by nothing else |
| Protobuf.WriteVarint | crates/voxtype-provider-doubao/src/lib.rs:772-778 | the loop appends the base-128 form of the value |
| Protobuf.ReadVarintAt | crates/voxtype-provider-doubao/src/lib.rs:780-796 | the loop reads at a cursor what the reference reading gives for the remaining bytes: at most ten bytes, no value over 64 bits |
| Protobuf.ReadVarintOfEncode | crates/voxtype-provider-doubao/src/lib.rs:772-796 | reading inverts writing on every 64-bit value, in at most ten bytes, whatever follows |
| Protobuf.ReadFieldAt | crates/voxtype-provider-doubao/src/lib.rs:798-840 | one field is read at a cursor, which stays within the message |
| Protobuf.FieldsOfEncode | crates/voxtype-provider-doubao/src/lib.rs:761-770 | a field reader recovers every written field, in order |
| Protobuf.FieldsOfRequest | crates/voxtype-provider-doubao/src/lib.rs:599-630 | all seven fields of a request are recovered from its bytes, under the numbers 2, 3, 5, 6, 7, 8, 9, with the frame states as 0, 1, 3, 9 |
| Protobuf.EncodeRequestInjective | crates/voxtype-provider-doubao/src/lib.rs:599-630 | two requests with the same bytes are the same request |
| Protobuf.FieldsConcat | crates/voxtype-provider-doubao/src/lib.rs:632-654 | concatenating messages concatenates their fields |
| Protobuf.DecodeResponseBytes | crates/voxtype-provider-doubao/src/lib.rs:632-654 | the single pass with a cursor terminates and decodes what the sequence of fields says, last value winning |
| Protobuf.DecodeConcat | crates/voxtype-provider-doubao/src/lib.rs:632-654 | within the size limit, decoding A ++ B is decoding the fields of B on top of the decoding of A |
| Protobuf.DecodeIgnoresUnknown | crates/voxtype-provider-doubao/src/lib.rs:632-654 | deleting a well-formed unknown field changes nothing |
| Protobuf.ResponseRoundTrip | crates/voxtype-provider-doubao/src/lib.rs:632-654 | every response envelope that fits a message is decoded from its own fields |
| PcmFraming.Pcm20msFramer.Push | crates/voxtype-provider-doubao/src/lib.rs:732-743 | a push returns the complete frames of what is pending and pushed, and keeps the rest, under one frame |
| PcmFraming.Pcm20msFramer.FinishPadded | crates/voxtype-provider-doubao/src/lib.rs:745-754 | finishing returns the pending bytes zero-padded to a frame, or nothing |
| PcmFraming.PushesAreChunkIndependent | crates/voxtype-provider-doubao/src/lib.rs:722-754 | however a stream is cut into pushes, pushing and finishing give the frames of the whole stream |
| PcmFraming.FramesOfShape | crates/voxtype-provider-doubao/src/lib.rs:722-754 | there are ceil(n / 640) frames and together they are the stream followed by zeros |
| PcmFraming.ReadPcmFrame | crates/voxtype-provider-doubao/src/runner.rs:493-521 | however short the reads, each call takes the next frame of the same framing from the recording; only an odd recording is refused as incomplete |
| FcitxBridge.VoxTypeBridge.ArmFor | fcitx5-addon/voxtypebridge.cpp:285-300 | arming succeeds only for the focused, non-secure context and replaces an earlier arm |
| FcitxBridge.VoxTypeBridge.CommitLegacy | fcitx5-addon/voxtypebridge.cpp:349-401 | the untagged commit is queued only when nothing is pending and its session is the armed, focused, non-secure one |
| FcitxBridge.VoxTypeBridge.CommitTagged | fcitx5-addon/voxtypebridge.cpp:404-496 | a repeated request id is answered from the completed cache or joined to the pending one, and a different session or text under it is refused |
| FcitxBridge.VoxTypeBridge.CancelSession | fcitx5-addon/voxtypebridge.cpp:504-521 | cancelling another session is refused; otherwise the arm and whatever is pending are dropped |
| FcitxBridge.VoxTypeBridge.RunLegacy | fcitx5-addon/voxtypebridge.cpp:381-400 | the deferred turn commits once into the armed context if that is still usable, and disarms |
| FcitxBridge.VoxTypeBridge.RunTagged | fcitx5-addon/voxtypebridge.cpp:465-494 | the deferred turn commits once if the context is still usable, remembers the answer under the request id, and disarms |
| FcitxBridge.VoxTypeBridge.RunDeferred | fcitx5-addon/voxtypebridge.cpp:379-401 | the deferred turn runs whichever commit is pending, once, and nothing when a cancellation dropped it |
| FcitxBridge.VoxTypeBridge.Receive | fcitx5-addon/voxtypebridge.cpp:245-283 | one datagram is answered or queued exactly as its command says |
| FcitxBridgeLaws.CommitsNeverExceedArms | fcitx5-addon/voxtypebridge.cpp:285-521 | for every interleaving of datagrams, focus changes and deferred turns, the calls made for a session, with the one still owed, never exceed the successful ARMs of that session |
| FcitxBridgeLaws.CallsAreFocused | fcitx5-addon/voxtypebridge.cpp:381-494 | every commitString call goes to a context that is armed, focused and not secure at that moment |
| FcitxBridgeLaws.ConfirmationMeansOneCall | fcitx5-addon/voxtypebridge.cpp:404-496 | for a client that resends identical bytes and armed its session at most once, at most one call is made for a request id, it carries that session and text, and a response the client accepts for the id means exactly one |
| FcitxBridgeLaws.ArmedIsLastArm | fcitx5-addon/voxtypebridge.cpp:285-300 | the armed context is always that of the most recent successful ARM |
| FcitxBridgeLaws.CallGoesToLastArm | fcitx5-addon/voxtypebridge.cpp:285-300 | a call goes to the most recently armed context, whichever session that arm was for |
| FcitxBridgeLaws.TextReachesItsOwnContext | fcitx5-addon/voxtypebridge.cpp:465-492 | over every run, a text goes to the context armed for its own session if and only if the last ARM accepted since its commit was queued, if there was one, was for that session |
| FcitxBridgeLaws.ArmWhilePendingRedirects | fcitx5-addon/voxtypebridge.cpp:285-300 | the condition can fail: an ARM accepted for another session while a commit is pending redirects that commit, from any state in which it can be queued |
| FcitxBridgeLaws.TaggedCommitIsKnown | fcitx5-addon/voxtypebridge.cpp:404-496 | over every run the addon never answers a tagged commit in a way that makes the client send it again untagged |
| FcitxWire.SplitJoin | src/fcitx.rs:314-333 | NUL-free parts are recovered exactly from a joined message |
| FcitxWire.FieldAt | fcitx5-addon/voxtypebridge.cpp:43-54 | the addon's separator loop finds the part at an index, or nothing |
| FcitxWire.CommitRequestIsRead | src/fcitx.rs:128-148 | the addon reads the client's commit request with its id and session and the text up to its first NUL |
| FcitxWire.RetryMessage | src/fcitx.rs:272-281 | the same bytes are sent once, and once more exactly when the first attempt failed in transport; the outcome is that of the last attempt |
| FcitxWire.CommitText | src/fcitx.rs:128-148 | the client sends at most two identical tagged requests, and one untagged request with the same session and text exactly when the answer does not know the command; it reports success exactly when the last answer confirms |
| FcitxWire.KnownAnswers | src/fcitx.rs:335-355 | of all responses of the addon only the rejection of an unknown command makes the client fall back |
| FcitxWire.ConfirmsOnlyOwnDispatch | src/fcitx.rs:371-388 | the client accepts a response as its dispatch exactly when the addon meant a dispatch of that request id |
| FcitxContext.ByteOffsetOf | fcitx5-addon/voxtypebridge.cpp:91-102 | the scan finds the byte where a character begins, or the end |
| FcitxContext.OffsetsOfText | fcitx5-addon/voxtypebridge.cpp:84-102 | on UTF-8 the addon counts characters and finds their byte positions |
| FcitxContext.WindowIsSlice | fcitx5-addon/voxtypebridge.cpp:111-132 | the bounded window of a UTF-8 text is the UTF-8 of at most 4096 of its characters, with both positions inside it |
| FcitxContext.WindowIsInvisible | src/fcitx.rs:33-44 | the reviewed text of the window equals that of the full text if and only if the selection has at most 4096 characters |
| FcitxContext.SnapshotRoundTrip | src/fcitx.rs:166-208 | every snapshot the addon describes passes all checks of the client, which reads back names, generation, positions, capabilities, flag and text |
| FcitxContext.SnapshotReview | src/fcitx.rs:33-44 | end to end, the client reviews what it would review from the whole text exactly when the selection fits |
| FcitxContext.SnapshotFitsBuffer | src/fcitx.rs:293-312 | the client's 20 KiB buffer holds every snapshot whose names take at most 3900 bytes |
| Fingerprint.FingerprintOf | src/grammar.rs:456-463 | the Rust loop computes the 64-bit FNV-1a value in hexadecimal |
| Fingerprint.TextFingerprint | fcitx5-addon/voxtypebridge.cpp:75-82 | the C++ loop computes the same 64-bit value |
| Fingerprint.FnvStepInjective | src/grammar.rs:456-463 | each step is injective in the hash for a fixed byte and in the byte for a fixed hash |
| Fingerprint.OneByteChangesFnv | src/grammar.rs:456-463 | texts of one length that differ in exactly one byte have different fingerprints |
| Fingerprint.FingerprintTextInjective | src/grammar.rs:462-462 | two equal fingerprint texts mean equal hashes |
| CleanupRules.ScanSpacing | src/grammar.rs:246-272 | the scan reports the maximal blank run before every punctuation mark |
| CleanupRules.ScanRepeatedPunctuation | src/grammar.rs:274-303 | the run-length loop reports exactly the maximal runs of two or more equal collapsible marks, the last run included |
| CleanupRules.ScanRepeatedWhitespace | src/grammar.rs:305-336 | the loop reports exactly the inner runs of two or more blanks that do not open a line |
| CleanupRules.TokenSpans | src/grammar.rs:396-412 | the loop finds exactly the maximal runs of non-whitespace |
| CleanupRules.TokensCut | src/grammar.rs:396-412 | tokens are disjoint, in order, and separated by whitespace only |
| CleanupRules.WordStartsClean | src/grammar.rs:414-426 | a token's normalized word begins with no punctuation, so searching for it finds it where it was trimmed |
| CleanupRules.ScanRepeatedWords | src/grammar.rs:216-244 | the loop reports exactly the second of two neighbouring equal words on one line |
| CleanupRules.ScanSentenceCase | src/grammar.rs:338-371 | the loop reports exactly the ASCII lower-case letters that begin a sentence outside protected tokens |
| CleanupRules.CandidatesAreSound | src/grammar.rs:174-371 | every candidate of the six rules is a non-empty range on one line, replaced by no more bytes and no newline; a safe one deletes blanks only |
| Cleanup.SelectCandidates | src/grammar.rs:86-98 | the greedy loop selects in rank order what overlaps nothing selected before |
| Cleanup.ChosenIsInOrder | src/grammar.rs:76-113 | for every text the selected edits are non-empty, in bounds, sorted and disjoint, and each is a sound candidate |
| Cleanup.LeftOutIsBlocked | src/grammar.rs:86-98 | each rejected candidate overlaps a selected one of no later rank |
| Cleanup.ApplyEditsTo | src/grammar.rs:136-159 | applying checks every edit against the text first, then splices; nothing is applied unless all fit |
| Cleanup.ApplyIsSplice | src/grammar.rs:101-159 | ordered character ranges become edits at character boundaries whose originals match, and applying the bytes is splicing the characters |
| Cleanup.ReportApplies | src/grammar.rs:114-172 | for every text, applying its own report gives the suggestion, which has no more bytes than the text and keeps every newline |
| Cleanup.OneByteChangeIsRejected | src/grammar.rs:164-172 | a report is never applied to a text that differs from its own in exactly one byte |
| Cleanup.CheckText | src/grammar.rs:76-131 | the scanners, the ranked selection and the report, run in the program's order, compute the specified report |
| CleanupSafe.SafeEditsReachFixpoint | src/grammar.rs:76-131 | applying just the Safe edits of a report keeps every character other than horizontal whitespace and leaves a text whose report has no Safe edit |
| CleanupSafe.SafeCoverage | src/grammar.rs:174-272 | the selected Safe ranges cover exactly the blanks at either end of the text and before punctuation |
| CleanupSafe.WordsAvoidSpacing | src/grammar.rs:216-272 | a repeated-word range never overlaps a blank run before punctuation, so it cannot displace that edit |
| CleanupBytes.BytesSelectTheSame | src/grammar.rs:84-113 | ranking, overlap and boundary tests on byte offsets select exactly the edits selected by character, at those offsets |
| CleanupEmission.CandidatesKnown | src/grammar.rs:174-371 | whether a range is a candidate is decided at its own position, for every rule but the repeated word |
| CleanupEmission.SuggestionIsEmission | src/grammar.rs:76-131 | the suggestion for a text without repeated words is what one scan emits: outer blanks and blanks before punctuation dropped, inner runs as one blank, repeated marks as one, sentence beginnings as capitals |
| CleanupSecondPass.CleanIsFixed | src/grammar.rs:76-131 | for every text, a report is clean exactly when its suggestion is the text itself |
| CleanupSecondPass.SecondPassFinds | src/grammar.rs:76-131 | for every text without repeated words, a second pass finds no blank to remove, and a mark to collapse exactly when removing blanks joined two equal ones |
| CleanupSecondPass.StableWhen | src/grammar.rs:76-131 | for every text without repeated words, a second cleanup changes nothing if and only if no removed blank joined equal marks and the suggestion neither repeats a word nor has a small letter where a sentence begins |
| CleanupSecondPass.JoinedMarksAreNotStable | src/grammar.rs:246-303 | joined marks are always changed by a second cleanup |
| CleanupTokens.WordsByText | src/grammar.rs:216-244 | the repeated-word rule depends only on the contents of the tokens and the newlines between them |
| CleanupTokens.ProtectedByLexeme | src/grammar.rs:373-381 | whether a character is protected depends only on the content of its token |
| CleanupStable.OnceKeepsAddress | src/grammar.rs:373-381 | reading repeated marks as one neither makes nor breaks an address |
| CleanupStable.StableExactly | src/grammar.rs:76-131 | for every text without repeated words and without blanks before punctuation, a second cleanup changes nothing if and only if, with every repeated mark read as one, no two neighbouring words are equal and no sentence begins at another small letter |
| CleanupStable.OnceIsEnough | src/grammar.rs:76-131 | for every text whose edits are only outer blanks, inner blanks and capitals, one cleanup is enough |
| CleanupTwice.JoinedMarksCollapseLater | src/grammar.rs:246-303 | "! !" becomes "!!", which becomes "!" |
| CleanupTwice.CollapsedMarksBeginSentence | src/grammar.rs:338-371 | "a!!b" becomes "A!b", which becomes "A!B" |
| CleanupTwice.CollapsedMarksRepeatWords | src/grammar.rs:216-303 | "a,,b a,b" repeats no word and is still changed by a second cleanup |
| Levels.IntegerSqrt | src/vad.rs:365-376 | Newton's loop ends with the exact floor root of every value |
| Levels.LiveIntegerSqrt | src/audio.rs:414-426 | the live loop ends on every 64-bit word with the power of two below the root for an even top bit and the exact root otherwise |
| Levels.LiveRootBounds | src/audio.rs:414-426 | the live root r satisfies r * r <= v, and v < (r + 1)^2 or v < 2 * r * r |
| Levels.LiveRootExact | src/audio.rs:414-426 | the live root is the floor root exactly for zero, an odd top bit, or a value below the square after the power of two |
| Levels.LiveRootOfThirty | src/audio.rs:414-426 | 30 gives 4 where the floor root is 5 |
| Levels.FrameLevel | src/vad.rs:330-347 | the loop computes peak and floor root mean square of the complete samples, with rms <= peak <= 32768 |
| Levels.LevelWithinPeak | src/vad.rs:341-346 | the level never exceeds the peak, so the 16-bit conversion never falls back to zero |
| Levels.MeasureFrame | src/audio.rs:385-412 | the live meter computes rms, peak, clipped and sample counts with its saturating 16-bit counters |
| Levels.MetricsWithinPeak | src/audio.rs:385-412 | for every frame the clipped samples are at most the samples counted, and for up to 65535 samples the live level is the root itself, within the peak |
| Levels.LongFrameExceedsPeak | src/audio.rs:385-412 | beyond that the saturated counter can put the level above the peak: four times 65535 samples of magnitude 1 have level 2 |
| Vad.StreamingVad.UpdateNoise | src/vad.rs:233-240 | the noise floor moves towards the level and the entry threshold follows it |
| Vad.StreamingVad.ProcessActive | src/vad.rs:173-190 | inside speech a frame at or above the exit threshold extends the segment, the fifteenth silent one ends it |
| Vad.StreamingVad.ProcessAttack | src/vad.rs:191-207 | outside speech a loud frame extends the attack, the last one needed starts the segment at the attack's first frame |
| Vad.StreamingVad.ProcessLevel | src/vad.rs:161-231 | one level changes the detector and is reported as specified |
| Vad.StreamingVad.ProcessFrame | src/vad.rs:122-126 | a PCM frame raises the peak and is processed by its level |
| Vad.SmoothBetween | src/vad.rs:304-308 | a smoothed value lies between the current one and the sample, so its fallback is never taken |
| VadLaws.ListeningKeeps | src/vad.rs:161-231 | for every level sequence: events alternate, start_k < end_k and end_k + 15 <= start_(k+1); a segment starts with enough frames at or above one entry threshold that is constant until the frame that ends it, ends in a voiced frame and is followed by 15 silent ones; attack and release counters stay below their limits |
| VadLaws.SpeechFollowsLevels | src/vad.rs:161-231 | as many frames in a row at or above their entry threshold as configured always leave speech active, and 15 in a row below the exit threshold always leave it inactive |
| VadLaws.ReportFollowsRun | src/vad.rs:214-230 | pause and hangover add up to 15 while a pause goes on; a start is reported by the frame completing the attack, an end by the fifteenth silent frame |
| VadLaws.NoiseStaysInHull | src/vad.rs:233-240 | the noise floor stays in every range that holds its seed and the non-speech levels it learned from |
| VadLaws.ThresholdFollowsNoise | src/vad.rs:297-302 | the entry threshold is always twice the current noise floor and 80, but at least the configured one and at most four times that |
| VadLaws.AverageIsMean | src/vad.rs:130-157 | the average is the floor mean of all levels heard and fits 16 bits |
| VadTrim.FrameLevels | src/vad.rs:317-328 | the chunk loop gives the level of every frame that holds a sample, and the peak of the whole recording |
| VadTrim.PercentileRank | src/vad.rs:310-315 | the percentile by sorting is a value with at most its rank of the levels below it and more than its rank at or below it |
| VadTrim.PercentileMonotone | src/calibration.rs:211-216 | a higher percentile is never a smaller value |
| VadTrim.AnalyzePcm | src/vad.rs:279-295 | batch analysis runs the detector, seeded with the low percentile, over all levels of the recording |
| VadTrim.AnalysisBounds | src/vad.rs:130-157 | speech is reported exactly when a segment was confirmed; then 0 <= trim_start <= speech_start < speech_end <= trim_end <= total_frames, and the padded interval covers every segment with 8 frames before and 15 after, clipped to the recording |
| VadTrim.TrimKeepsSpeech | src/vad.rs:258-276 | trimming such a recording keeps exactly the non-empty bytes [640 * trim_start, min(640 * trim_end, len)); without speech the recording stays whole |
| Calibration.MeasurePhase | src/calibration.rs:185-209 | the nested loops compute levels, peak, clipped and sample counts of the complete 640-byte frames, samples from 32700 on counting as clipped; the levels are those voice detection computes for the same frames |
| Calibration.SuggestionSeparates | src/calibration.rs:167-175 | the suggestion lies strictly between noise and speech exactly when the noise is below 10000 and the speech above min(noise + 80, 10000) |
| CoreSession.SessionMachine.Apply | crates/voxtype-core/src/session.rs:159-321 | every command in every state either moves the machine as specified and asks for the specified work, or is rejected |
| CoreSession.FromCounterInjective | crates/voxtype-core/src/session.rs:9-13 | different counters make different session identifiers |
| CoreSession.IdentifiersAreFresh | crates/voxtype-core/src/session.rs:174-193 | a started session carries an identifier no earlier point of the run ever had |
| CoreSession.ActiveSessionStays | crates/voxtype-core/src/session.rs:174-321 | while a session is active no command replaces it |
| CoreSession.InsertionNeedsTranscript | crates/voxtype-core/src/session.rs:244-268 | text reaches insertion only from its own finalizing session and is never blank |
| AppLifecycle.QueueIsLog | crates/voxtype-app/src/controller.rs:137-199 | over every run, what was drained followed by what is queued is exactly the log of accepted operations, and the queue never exceeds 256 |
| AppLifecycle.RejectionChangesNothing | crates/voxtype-app/src/controller.rs:137-159 | a command is refused exactly when the queue has no room for two events or the machine rejects it, and then changes nothing; an accepted one always publishes |
| AppLifecycle.SecondResultExactly | crates/voxtype-core/src/session.rs:207-217 | a session that is over gets another terminal result from exactly two commands, cancelling or failing it, so there is not exactly one per session |
| AppLifecycle.ResultCacheAgrees | crates/voxtype-app/src/controller.rs:187-194 | the 32-entry cache answers with the latest record of a session exactly as long as fewer than 32 other sessions were recorded after it, else with nothing |
| AppLifecycle.RememberKeepsSuffix | crates/voxtype-app/src/controller.rs:345-361 | remembering in the bounded cache keeps the newest 32 of the unbounded list of latest records |
| AppController.AppController.Apply | crates/voxtype-app/src/controller.rs:137-159 | a command is refused under backpressure or by the machine, otherwise its state event and its terminal result are published together |
| AppController.AppController.QueueSessionFinished | crates/voxtype-app/src/controller.rs:337-369 | a terminal result replaces an earlier one of its session, evicts the oldest beyond 32, and is published |
| AppController.AppController.FinishSession | crates/voxtype-app/src/controller.rs:166-185 | a finished session is recorded unless the queue is full |
| AppController.AppController.SessionResult | crates/voxtype-app/src/controller.rs:188-194 | the search from the newest end finds the newest cached result of a session |
| AppController.AppController.DrainEvents | crates/voxtype-app/src/controller.rs:197-199 | draining hands out all queued events in order and empties the queue |
| AppController.AppController.ReplaceRegistry | crates/voxtype-app/src/controller.rs:206-209 | replacing the registry clears all health |
| AppController.AppController.PlanRoute | crates/voxtype-app/src/controller.rs:222-245 | planning uses registration and cooldown of each configured provider |
| AppController.AppController.RecordAttempt | crates/voxtype-app/src/controller.rs:254-276 | one attempt is counted and, when it failed and was not cancelled, held against the provider's health |
| AppController.AppController.RecordRouteResult | crates/voxtype-app/src/controller.rs:248-289 | a route result is booked attempt by attempt, then its success |
| ProviderLedger.PlannedExactly | crates/voxtype-app/src/controller.rs:222-245 | over any history, a configured provider is planned exactly when it is registered and not within 60 s after the latest of three or more retryable failures since its last success; plans keep policy order and replay rule |
| ProviderLedger.HealthReflectsPast | crates/voxtype-app/src/controller.rs:372-393 | a provider's counter and deadline are always those of its retryable, non-cancelled failures since its last success or the last registry replacement |
| ProviderLedger.UsageAddsUp | crates/voxtype-app/src/controller.rs:248-289 | per provider, over any history of routed results, attempts = successes + failures + cancelled attempts |
| ProviderLedger.TokensAddUp | crates/voxtype-app/src/controller.rs:402-429 | per provider, over any history, every token counter is the sum of what its successful transcripts reported, a stated total taking precedence over input plus output |
| ProviderLedger.RunsAreWellShaped | crates/voxtype-app/src/provider.rs:151-247 | every result of the route runner has the shape the accounting relies on |
| Daemon.VoxTypeDaemon.Start | src/daemon.rs:229-313 | starting begins a session, arms its insertion and starts capture, undoing what was done when a step fails |
| Daemon.VoxTypeDaemon.Stop | src/daemon.rs:315-367 | stopping finalizes the session and begins recognition, or fails it and disarms; without a job the lease is dropped |
| Daemon.VoxTypeDaemon.BeginRecognition | src/daemon.rs:756-833 | a short or silent recording completes without a job, a broken pipeline fails the session, otherwise a job is started |
| Daemon.VoxTypeDaemon.FailNonterminalSession | src/daemon.rs:721-738 | only the named session, and only while active, is failed |
| Daemon.VoxTypeDaemon.Cancel | src/daemon.rs:377-407 | an accepted cancellation drops recording, job and lease; a refused one changes nothing |
| Daemon.VoxTypeDaemon.InsertText | src/daemon.rs:1116-1132 | the adapter is asked only with the session's own lease |
| Daemon.VoxTypeDaemon.CompleteRecognition | src/daemon.rs:851-933 | a transcript is accepted, committed and completed, or the session is failed |
| Daemon.VoxTypeDaemon.PollRecognition | src/daemon.rs:613-664 | a ready result of the current session is booked and settled, a late one is dropped without touching the session |
| DaemonLaws.CommitsAreSafeAlways | src/daemon.rs:229-407 | over every interleaving of start, stop, cancel, reset, drain and late results, whatever the adapters answer and however full the event queue: at most one commit per session, never blank, only with that session's own earlier lease, never after its cancellation was accepted |
| DaemonLaws.CommitComesFromPoll | src/daemon.rs:851-891 | a commit happens only for the job's session, in its finalizing state, with the worker's own transcript, which the machine accepts |
| DaemonLaws.RetiredStays | crates/voxtype-core/src/session.rs:159-193 | a session past its insertion never becomes preparing, listening or finalizing again |
| Utf8.BoundaryIffCharIndex | src/grammar.rs:133-159 | the one-byte boundary test accepts exactly the positions where characters begin or the text ends |
| Utf8.OffsetMonotone | src/grammar.rs:76-113 | byte offsets grow strictly with character positions, so ranges compare alike in bytes and characters |
| Utf8.DecodeOfEncode | src/fcitx.rs:216-220 | decoding inverts encoding on every text |
| Utf8.EncodeOfDecode | src/fcitx.rs:216-220 | whatever decodes re-encodes to the same bytes, so overlong forms and surrogates are refused |
| Decimal.ParseOfToDecimal | src/fcitx.rs:210-214 | reading inverts writing of every 64-bit number |
| DoubaoRunner.RetryUsesFreshToken | crates/voxtype-provider-doubao/src/runner.rs:93-116 | the first payload of an attempt's connection is StartTask with the attempt's token, and a successful attempt wrote the whole session with it |
| DoubaoRunner.RunConfigError | crates/voxtype-provider-doubao/src/runner.rs:434-460 | a configuration is fit exactly within its time bounds and with a bounded JSON object, and the error names the first that fails |
| DoubaoOutcome.KeepsWhatItReports | crates/voxtype-provider-doubao/src/session.rs:430-483 | over every run the kept transcript is the text of the last reported final result that is not blank; unless the session failed, packet number and voice marks are those of the reported results |
| DoubaoOutcome.ResultIsHeard | crates/voxtype-provider-doubao/src/session.rs:430-483 | a result message in an open session is reported and noted if its number is new, fails the session if it is final without text, and is ignored otherwise |
| DoubaoOutcome.FinishReportsFinalText | crates/voxtype-provider-doubao/src/session.rs:485-505 | over every run a finishing session answers the end of the session with the last non-blank final text, and with an error exactly when there was none |
| DoubaoOutcome.FinishedTells | crates/voxtype-provider-doubao/src/session.rs:485-505 | over every run the outcome a session finished with has the last non-blank final text, the confirmed frames, the last packet number and the voice marks of all reports |
| DoubaoOutcome.RefusedExactly | crates/voxtype-provider-doubao/src/session.rs:143-334 | a caller's call is refused exactly when it is out of turn or its argument is unacceptable; the refusal fails the session unless it is cancelled |
| DoubaoOutcome.DeafSessions | crates/voxtype-provider-doubao/src/session.rs:343-355 | a message is refused without effect exactly when no session is under way |
| DoubaoOutcome.FaultIsRefused | crates/voxtype-provider-doubao/src/session.rs:343-422 | a message for another request or service, or one reporting a failure, fails the session with its own error; failed credentials of a starting task are Authentication |
| DoubaoOutcome.MisplacedIsRefused | crates/voxtype-provider-doubao/src/session.rs:343-483 | a lifecycle or result message out of its phase, or with an unreadable result, fails the session with its own error |
| DoubaoOutcome.WholeSession | crates/voxtype-provider-doubao/src/session.rs:143-505 | a caller that opens a session, sends n packets, ends the audio and hears a final result and the end writes exactly the session's requests and is told text, task, n, packet number and voice marks |
| DoubaoOutcome.TimestampIsRead | crates/voxtype-provider-doubao/src/session.rs:588-594 | the request JSON holds the time as a number that reads back |
| Protobuf.ShortFields | crates/voxtype-provider-doubao/src/lib.rs:761-778 | a short field is its number and wire type in one byte, its length and its bytes |
| Protobuf.PayloadsByType | crates/voxtype-provider-doubao/src/lib.rs:798-840 | wire types 0, 1, 2 and 5 are a varint, eight bytes, a length with its bytes, and four bytes; others are refused |
| Protobuf.NumbersOfResponse | crates/voxtype-provider-doubao/src/lib.rs:632-654 | the seven response fields have the numbers 1 to 7 |
| Protobuf.LongMessagesAreRefused | crates/voxtype-provider-doubao/src/lib.rs:632-635 | a response over four mebibytes is refused |
| Routing.HardErrorsStop | crates/voxtype-app/src/provider.rs:151-247 | an unregistered provider and a blank transcript end the route with their own errors |
| FcitxOutcomes.CancelAnswered | fcitx5-addon/voxtypebridge.cpp:504-522 | over every run a CANCEL is refused, changing nothing, exactly while an arm of another session is held; otherwise the arm and whatever waits are dropped |
| FcitxOutcomes.CancelStopsTheCall | fcitx5-addon/voxtypebridge.cpp:504-522 | over every run an arm lies between an accepted CANCEL and any later commitString call |
| FcitxOutcomes.CommitAtRestIsRefused | fcitx5-addon/voxtypebridge.cpp:349-446 | a COMMIT or COMMIT2 that reaches an unarmed addon is answered at once and not queued |
| FcitxOutcomes.CancelledStaysAtRest | fcitx5-addon/voxtypebridge.cpp:504-522 | over every run, after an accepted CANCEL nothing is armed and nothing waits until the next arm |
| FcitxOutcomes.ArmAnswered | fcitx5-addon/voxtypebridge.cpp:285-300 | ARM arms the last focused context if it has focus and is not secure, and is refused with the reason otherwise |
| FcitxOutcomes.TaggedAnswered | fcitx5-addon/voxtypebridge.cpp:404-466 | a new tagged commit is queued exactly when nothing stands in its way and refused with the first obstacle otherwise; a completed one is answered again, a waiting one waits on |
| FcitxOutcomes.LegacyAnswered | fcitx5-addon/voxtypebridge.cpp:349-382 | a legacy commit is queued or refused on the same conditions |
| FcitxOutcomes.TurnAnswered | fcitx5-addon/voxtypebridge.cpp:383-402 | the deferred turn commits what waits if the armed context is still focused and not secure, answers, remembers a tagged answer and disarms |
| FcitxOutcomes.TaggedInsertion | fcitx5-addon/voxtypebridge.cpp:285-502 | ARM, a tagged commit, the turn and the same commit again insert the text once and confirm both requests |
| FcitxOutcomes.OthersAnswered | fcitx5-addon/voxtypebridge.cpp:245-283 | PING, CONTEXT, unknown commands, empty and oversized datagrams change nothing and get their answers |
| FcitxWire.WordsOfProtocol | fcitx5-addon/voxtypebridge.cpp:264-283 | the commands and answers are these words |
| FcitxWire.NamesOfDetails | fcitx5-addon/voxtypebridge.cpp:285-510 | the refusals have these names |
| FcitxContext.CapabilitiesAreRead | fcitx5-addon/voxtypebridge.cpp:311-319 | the addon lists exactly the capabilities a context has and the client reads that list back |
| FcitxContext.DescribesExactly | fcitx5-addon/voxtypebridge.cpp:321-330 | a context is described unless the text it may show has a NUL |
| FcitxContext.WindowIsCentred | fcitx5-addon/voxtypebridge.cpp:111-132 | a text over 4096 characters is cut to 4096 centred, as far as it reaches, between cursor and anchor |
| FcitxContext.ReviewedText | src/fcitx.rs:36-48 | the client reviews the selection, or up to 1200 characters before the cursor |
| Fingerprint.KnownHashes | fcitx5-addon/voxtypebridge.cpp:75-82 | the fingerprints of the empty text and of one letter are the published ones |
| CleanupMeaning.CandidatesMean | src/grammar.rs:174-371 | the candidates of a text are exactly: its outer blank runs, repeated words, blank runs before marks, runs of equal collapsible marks, inner blank runs, and sentence capitals, with these ranges and replacements |
| CleanupMeaning.RepeatedIsDoubled | src/grammar.rs:216-244 | every repeated word proposed follows, on its line, a word that is the same but for the case of ASCII letters |
| CleanupMeaning.DoubledIsRepeated | src/grammar.rs:216-244 | every word that starts its token and follows the same word on its line is proposed |
| CleanupMeaning.TokensAreStretches | src/grammar.rs:396-412 | the tokens are exactly the maximal stretches without whitespace |
| CleanupMeaning.CapitalIsJustified | src/grammar.rs:338-371 | a capital is proposed only for a lower-case ASCII letter outside addresses with nothing but whitespace and opening quotes before it, back to the beginning of the text or the end of a sentence |
| CleanupMeaning.CapitalIsDue | src/grammar.rs:338-371 | and is proposed there whenever the sentence before ended behind an ordinary character |
| CleanupMeaning.Tables | src/grammar.rs:465-540 | the character classes, by code point |
| CleanupMeaning.Folding | src/grammar.rs:499-533 | the ASCII letters pair up and nothing else has another case |
| CleanupMeaning.RulesInOrder | src/grammar.rs:174-371 | the order of the rules where they overlap, and which are safe |
| Cleanup.AppliesExactly | src/grammar.rs:136-160 | edits apply exactly when each of them, behind the one before, begins and ends at characters and still finds its original |
| Cleanup.SpliceLast | src/grammar.rs:149-159 | the last of several edits replaces its own range and leaves what follows alone |
| Cleanup.CountsAddUp | src/grammar.rs:112-130 | a report counts its safe and reviewable edits and is clean exactly without edits |
| Levels.LevelIsRootMeanSquare | src/vad.rs:330-347 | the level of a frame is the largest whole number whose square is within the mean of the squared samples |
| Levels.MagnitudeIsDistance | src/vad.rs:330-347 | samples are little-endian two's complement and the magnitude is the distance from zero |
| VadLaws.OneMoreLevel | src/vad.rs:161-240 | one level starts, continues or ends speech, counts or resets attack and release, and teaches the noise floor by an eighth down or a thirty-second up, each exactly when |
| VadTrim.SeedIsQuiet | src/vad.rs:279-315 | a recording is judged from a noise floor that fewer than a fifth of its frames lie below and more than a fifth do not exceed |
| Calibration.SuggestionIs | src/calibration.rs:167-183 | the suggestion is a quarter of the distance from noise to speech, at least 80, above the noise, and at most 10000 |
| CoreSession.AcceptedExactly | crates/voxtype-core/src/session.rs:159-321 | which commands a state accepts |
| CoreSession.AcceptedLeads | crates/voxtype-core/src/session.rs:159-321 | the state each accepted command leads to and the work it asks for |
| CoreSession.RefusedBecause | crates/voxtype-core/src/session.rs:323-340 | a refused command changes nothing and says whether state, session or text was wrong |
| CoreSession.IdentifierText | crates/voxtype-core/src/session.rs:11-14 | an identifier is the prefix and the counter in decimal |
| ProviderLedger.DisclosureAddsUp | crates/voxtype-app/src/controller.rs:248-289 | per provider, over any history, a request for each attempt that reached its transport and the recording's length for each attempt it may have heard |
| DaemonOutcomes.TranscriptIsCommitted | src/daemon.rs:851-933 | a transcript that is not blank is committed once with the session's own lease exactly with room for an event; the session is completed and its result published if the adapter agreed, failed with its error if not, and left inserting exactly when 254 events were pending |
| DaemonOutcomes.FailedResult | src/daemon.rs:835-849 | a failed recognition fails its session with its own error and releases the lease, exactly with room for the events |
| DaemonOutcomes.UnleasedIsNotCommitted | src/daemon.rs:1116-1132 | without a lease of its own session nothing is committed and the session fails |
| DaemonOutcomes.BlankIsRefused | src/daemon.rs:851-891 | a blank transcript is refused and leaves the session waiting |
| DaemonOutcomes.LateIsDropped | src/daemon.rs:634-642 | a late result is dropped and touches nothing else |
| DaemonOutcomes.StartRefused | src/daemon.rs:229-250 | starting is refused without effect exactly while recording, without a profile, during an active session or without room for an event |
| DaemonOutcomes.StartBegins | src/daemon.rs:229-313 | starting opens a session, arms its lease and listens; a failure to arm or capture fails the session and leaves no lease |
| DaemonOutcomes.StopRefused | src/daemon.rs:315-330 | stopping is refused without effect exactly when it does not mean a listening session or without room for an event |
| DaemonOutcomes.StopEnds | src/daemon.rs:315-367 | stopping starts the job and keeps the lease, completes a recording without speech, or fails the session with its error, releasing the lease |
| DaemonOutcomes.CancelEnds | src/daemon.rs:377-407 | cancelling ends any session it means with its recording, job and lease, and is refused otherwise |
| DaemonOutcomes.Dictation | src/daemon.rs:229-933 | from rest, starting, stopping and a transcript that arrives commit the text once with the lease armed for it, complete the session and keep its result |
| DaemonOutcomes.OnlyCancellingFrees | src/daemon.rs:377-407 | a session that waits for a result already taken or an insertion already made is moved by cancelling only |
| DaemonOutcomes.InsertedButStuck | src/daemon.rs:851-933 | a run in which 254 events are pending, a text is inserted and its session stays inserting |
| FcitxContext.AcceptsExactly | src/fcitx.rs:166-208 | the client accepts exactly the responses with all fields readable and positions within a text of at most 4096 characters |
| DoubaoOutcome.IdsAccepted | crates/voxtype-provider-doubao/src/session.rs:99-122 | a session is made exactly for an id of 1 to 128 bytes without control characters, and begins untouched |
| VadTrim.LevelsOfPieces | src/vad.rs:317-328 | the levels are those of the pieces of 640 bytes in order, a shorter last one counting if it holds a sample |
| ProviderLedger.LastsAreKept | crates/voxtype-app/src/controller.rs:248-289 | per provider, over any history, the last failure with its time and error and the last success are kept |
| Fingerprint.FingerprintIsRead | src/grammar.rs:456-463 | the fingerprint text is its name and the hash in sixteen lower-case hexadecimal digits that read back |

## Left out

- curl, HTTP, TLS, D-Bus, Opus, MD5, the Secret Service, processes, threads and the desktop interface: outside the model; adapters answer through parameters or arbitrary values.
- JSON: result events, JSON-object validity and the wording of authentication messages are the parameter `Library`; the shape of a recognition event is not parsed.
- The Unicode alphanumeric table: the parameter `alnum` of the cleanup rules; the White_Space property is modelled exactly.
- Error messages, redaction and Debug output: only category, code and retryability are kept, and the protobuf decoder's malformations are one `None`.
- Cleanup edit messages and confidences: fixed by the rule, so the rule stands for them.
- Counters of frames, sessions, attempts and tokens: mathematical integers, without the saturation at the end of their 32 or 64 bits; varints, FNV, the square roots, square sums and smoothing keep exact machine arithmetic.
- The 64 KiB receive limit of the addon is modelled for the datagram size only; the socket path, permissions and logging are not.
- Real time: the driver's sleep and poll intervals are unmodelled; only the order of clock readings against deadlines is.
- DoubaoRunner.SessionDriver.Run: partial results are counted, not delivered; the recording's metadata cannot fail to be read.
- CleanupMeaning.CapitalIsDue: says nothing of a letter behind several ends of sentences in a row, where `CleanupRules.ScanSentenceCase` decides.
- Routing.RunRecognitionRoute: what each adapter would answer and when cancellation is seen are given in advance, because the adapters are independent of each other (`DoubaoAdapter.RunRoute` asks them one by one and gets the same attempts); provider capabilities are not part of the model.
- Daemon.VoxTypeDaemon.Stop: minimum duration, voice activity, trimming and file removal appear only as the outcome of the pipeline; the link to `VadTrim` is not drawn.
- AppController.AppController.PlanRoute: the time-relative health snapshot shown in the interface is not modelled.
- FcitxWire.CommitRequestIsRead: the client does not refuse a NUL inside the text, and the addon then sees only what stands before it; the lemma says so.
- Levels.MetricsWithinPeak: says nothing of the level of a frame with more than 65535 samples, where `LongFrameExceedsPeak` applies; a real frame has 320.
- CleanupStable.StableExactly: decides on the text before the first cleanup, for texts without repeated words and without blanks before punctuation. Removing such blanks can merge tokens, so with them `CleanupSecondPass.StableWhen` decides on the suggestion; for a text with repeated words only `CleanIsFixed` is proved.
- CleanupStable.CaseBlind: a hypothesis about the parameter `alnum`, that a capital ASCII letter is alphanumeric when the small one is; it holds of the Unicode table.
- CoreSession.IdentifiersAreFresh: the session counter is unbounded here; after 2^64 sessions the program would repeat the last identifier.
- Calibration's signal-to-noise decision: floating-point; only its integer kernels are modelled.
- Configuration reload, quitting and the diagnostic insertion of the daemon: not part of the commit path.
- Building the provider registry: a set of registered identifiers; a duplicate registration is refused by the program and not modelled.
