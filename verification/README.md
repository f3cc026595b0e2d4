# RoboCore voice coordinator and servo link, modelled in Dafny

RoboCore is a Raspberry Pi voice-assistant robot. The model covers three parts of it, each written as immutable state records with pure step functions folded over a sequence of events, bytes or peaks.

1. **The voice coordinator** (`src/main.py`).
   - `SyncMicRecognizer` runs the trigger → listen → think → ready loop. It is modelled as one state record, `MicRecognizer.Mic`. Its three threads and the main program act on the record through five atomic actions: `Trigger`, `Endpointer`, `WorkerWake`, `WorkerComplete(outcome, followOn)` and `Shutdown`. A run is any interleaving of them.
   - Every call the coordinator makes on its collaborators is appended to a trace. The collaborators are the status reporter, recognizer, recorder, actor, player, trigger and `say`.
   - Properties are stated over that trace. They include:
     - an invariant that holds on every interleaving;
     - that a duplicate trigger is a complete no-op;
     - the order of reports in a cycle;
     - recovery from a `speech.Error`;
     - that no request follows shutdown.
   - `_handle_result` is a pure decision table.
   - `StatusUi` maps a status to FIFO, log and sound effects.
   - `process_event` maps Assistant-library events to reports and actor calls. It is modelled with a reference table of statuses.
2. **The Arduino serial framing protocol.**
   - `recvWithStartEndMarkers`, the `loop` handshake on `newData` and `parseData` (`src/arduino/message.cpp`). The receive buffer is a 32-character sequence with an index invariant. `strtok`, `atoi` and C strings are in `CString`.
   - The matching serialiser `sendCommand` and the `'b'` and `'d'` message templates (`src/arduino/pySerialMultiple.py`).
   - The central result is a round trip. A `sendCommand` message whose body fits the 31 usable buffer cells can be preceded by noise on the line. The receiver still takes it in and parses it back into `"Servo"` and the six numbers.
   - Ordinary poses do not fit. When the first five numbers have three digits, as in `sendCommand(180, 165, 180, 180, 180, 73)`, the body is 34 characters or more. The buffer keeps it only up to the fifth comma, so `parseData` finds no sixth integer field and passes NULL to `atoi` for `command6` (src/arduino/message.cpp:115-116). The model reports this as `Failure(MissingCommand(6))`.
3. **The consecutive-loudness trigger** of the cry detector (`src/lina.py`) and of the stream test (`src/custom/streamtest.py`).
   - Each frame's peak is an abstract integer.
   - The counter is shown to equal the length of the current loud run modulo the trigger length.
   - The bounded stream-test loop is a method whose loop invariant ties it to the functional model. It fires at most 86 times in its 430 frames.

Modules:
- `Wrappers`: `Option` and `Result`.
- `Sequences`: occurrence counts.
- `Loudness`.
- `CString`.
- `Fields`: `parseData`.
- `Message`: the receiver and `loop`.
- `SerialCommand`: the PC side and the round trip.
- `StatusUi`.
- `MicRecognizer`: the coordinator.
- `MicProperties`: its invariant and trace properties.
- `AssistantEvents`.

Four behaviours of the code are worth stating plainly:
- **Dispatch.** An unhandled transcript that comes with response audio plays that audio and is not logged as unhandled. The `elif result.response_audio` branch (src/main.py:394) comes before the unhandled-transcript warning (src/main.py:396-397). See `MicRecognizer.HandleResult`.
- **Processor exclusivity.** The code does not keep the audio processor registered at most once. Suppose a request fails before the end of speech, so `endpointer_cb` (src/main.py:365-367) never ran. A dialog follow-on then re-runs `recognize` (src/main.py:383-384), which adds the recognizer a second time (src/main.py:361) with no removal in between. `MicProperties.ProcessorAddedTwice` exhibits this run. The invariant `MicProperties.Inv` bounds registrations by requests instead, and that bound holds on every interleaving.
- **The `'d'` command.** Its message `<ServoDelay, n>` (src/arduino/pySerialMultiple.py:52-56) has only two comma-separated fields. The sketch's `parseData` therefore gets NULL from `strtok` for `command2` and passes it to `atoi` (src/arduino/message.cpp:104-105), which is undefined behaviour. The model reports this as `Failure(MissingCommand(2))`. See `SerialCommand.DCommandLacksFields` and `SerialCommand.DCommandRejected`.
- **Other exceptions.** Only `speech.Error` is caught (src/main.py:378). Any other exception from the request, the actor or the player ends the worker thread before `recognizer_event.clear()` (src/main.py:382). The event stays set, so every later trigger returns at once (src/main.py:355-357) and ready is never reported again. See `MicProperties.EscapedExceptionStopsCoordinator`.

## Model

| member | source | states |
|---|---|---|
| StatusUi.Init | src/main.py:284-303 | The LED FIFO (resp. trigger sound) is kept iff its path was given (non-empty) and the file exists, and then it is that path. Each given but missing file costs exactly one warning, naming that file, with the FIFO's warning first. Nothing else is emitted. |
| StatusUi.Report | src/main.py:305-312 | The status line `status + "\n"` goes to the kept FIFO first, and only to it. The log line `status + "..."` is always written. The trigger sound plays iff the status is listening and a sound was kept. Each channel is used once, in the order FIFO, log, sound. No warning is emitted. |
| StatusUi.FifoWrittenIffConfigured | src/main.py:287-312 | Composing init and report: the FIFO is written iff a FIFO path was given and existed at start-up, and the sound plays iff listening with a given, existing sound. |
| MicRecognizer.HandleResult | src/main.py:389-399 | The actor is called first, and only when a transcript is present. Response audio is played iff it is present and the transcript is absent, unhandled or the always-respond option is set. A handled command is logged before its response is played. With a transcript, it is logged as handled iff handled, and as unhandled iff unhandled with no audio. Without a transcript the only call is the playback, or the "no command" log when there is no audio either. With a transcript there are exactly two calls, or three when handled with audio and the always-respond option, so nothing is played or logged twice. |
| MicRecognizer.Start | src/main.py:342-346 | Entering the context makes a running coordinator with a waiting worker, a clear event, and no registration or request yet. The always-respond option is the one given. Exactly three calls are made: the worker thread is started first, the trigger is started, and the last call reports ready, the only status reported. |
| MicRecognizer.Recognize | src/main.py:354-363 | The event is always set afterwards and the trace only grows. It grows exactly when the event was clear, by reporting listening, resetting the recognizer and registering the processor, in that order. With the event already set the state is unchanged. `running`, the worker and the option are never touched. |
| MicRecognizer.EndpointerCb | src/main.py:365-367 | The trace grows by exactly two calls: removing the processor, then reporting thinking. The event, `running`, the worker and the option are unchanged. |
| MicRecognizer.Wake | src/main.py:370-377 | A worker that is not waiting, or finds the event clear, changes nothing. A woken worker moves to a request while running and exits otherwise. The trace grows exactly when a live worker is woken, and then by the log line and `do_request`. The event, `running` and the option are unchanged. |
| MicRecognizer.Complete | src/main.py:376-387 | Only a worker with a request in flight completes. Afterwards the event is set exactly when a follow-on re-armed it. The worker waits again while running and has exited otherwise. An exception other than `speech.Error` ends the worker thread with the event and the trace as they were. |
| MicRecognizer.Stop | src/main.py:348-352 | Afterwards `running` is clear and the event is set, and the trace grows by exactly one call, `end_audio`. The worker and the option are unchanged. |
| MicRecognizer.SelectTrigger | src/main.py:247-261 | A trigger is selected iff the name is gpio, clap or custom. gpio selects the button on channel 23 with the prompt "Press the button on GPIO 23". clap selects the clap trigger and custom the custom trigger, both prompting "Clap your hands". Any other name fails with the logged "Unknown trigger" message. |
| MicRecognizer.SelectTriggerByName | src/main.py:247-258 | Selection and naming are inverse: a selected trigger's kind has the name that selected it, and every kind's name selects a trigger of that kind. |
| MicRecognizer.DoRecognition | src/main.py:247-267 | A coordinator is started iff the trigger name is known. An unknown trigger returns before any worker exists. |
| MicProperties.StartInv | src/main.py:342-346 | The coordinator invariant holds right after entering the context. |
| MicProperties.RunInv | src/main.py:354-387 | Every interleaving of the five actions keeps the invariant. Requests never exceed registrations, and registrations exceed requests by at most one. |
| MicProperties.ReachableInv | src/main.py:342-387 | The invariant holds in every state reachable from start-up. |
| MicProperties.DuplicateTriggerIgnored | src/main.py:354-357 | A trigger while the event is set, followed by any actions, ends in the same state as those actions alone. |
| MicProperties.RecognizeIdempotent | src/main.py:354-363 | Recognizing twice is recognizing once, and it adds at most one registration. |
| MicProperties.NormalCycle | src/main.py:354-387 | From an idle running coordinator, a trigger, then the end of speech and the worker's wake-up in either order, then completion without follow-on. This reports listening, thinking and ready in that order. It returns the coordinator to idle with one more registration and one more request. |
| MicProperties.StartReports | src/main.py:342-346 | Entering the context reports ready and no other status. |
| MicProperties.StartupCycle | src/main.py:342-387 | From start-up, a first cycle in either order shows the user ready, listening, thinking and ready again. |
| MicProperties.CompleteCalls | src/main.py:382-387 | Completion makes the dispatch's calls, then either a follow-on `recognize` (reporting listening, one more registration) or the trigger restart and ready report. It starts no request. |
| MicProperties.ErrorRecovered | src/main.py:376-387 | A `speech.Error` is logged and the apology spoken right after the trace so far. The cycle still clears the event, and the worker keeps waiting with the follow-on or ready report. |
| MicProperties.NoRequestsAfterShutdown | src/main.py:370-373 | Once `running` is clear, no interleaving of actions sets it again or makes another request. |
| MicProperties.ShutdownWakesWorker | src/main.py:348-352 | Shutdown followed by a wake takes a waiting worker out of its loop with no request. The only call is `end_audio`. |
| MicProperties.ProcessorAddedTwice | src/main.py:376-384 | A trigger, a wake and a failed request with follow-on register the processor twice with no removal in between. |
| MicProperties.DeadStep | src/main.py:354-367 | Once the worker thread has ended with the event set, no action revives it or clears the event. No action registers the processor, starts a request or reports ready. |
| MicProperties.EscapedExceptionStopsCoordinator | src/main.py:376-387 | An exception other than `speech.Error` ends the worker with the event set. After any further actions the worker is still dead and the event still set. No registration, request or ready report follows, and every trigger is ignored. |
| AssistantEvents.ProcessEvent | src/main.py:204-229 | Every event is logged first. Start-finished and turn-finished report ready, turn-started reports listening, and end-of-utterance reports thinking. A recognized phrase goes to the actor iff the actor claims it, after the conversation is stopped iff the Assistant need not answer. A fatal error exits with status 1, and only a fatal error exits. The event is logged once, and each branch acts once, so a claimed phrase is handled by the actor exactly once. |
| AssistantEvents.EventReports | src/main.py:207-225 | The statuses one event reports are exactly those of the reference table. |
| AssistantEvents.StreamReports | src/main.py:204-233 | The statuses reported over a whole event stream are the reference table's, in event order, up to the first fatal error. They do not depend on the actor or the option. |
| AssistantEvents.TurnReports | src/main.py:212-225 | A conversation turn reports listening, thinking, ready, whatever was recognized. |
| AssistantEvents.ExitEndsStream | src/main.py:227-233 | No effect follows an exit. |
| Message.ReadByte | src/arduino/message.cpp:66-84 | Between frames a byte only starts a frame if it is `<`. In a frame, `>` stores NUL, ends the frame, rewinds the index and raises `newData`. Any other byte, `<` included, is stored with the index clamped to 31. The index invariant is kept. |
| Message.Recv | src/arduino/message.cpp:56-86 | The receiver consumes a prefix of the input and keeps the index invariant. With `newData` raised it consumes nothing. It stops early only with `newData` raised. |
| Message.RecvAppend | src/arduino/message.cpp:63-85 | Receiving two pieces is receiving their concatenation, as long as the first piece does not complete a frame. |
| Message.IdleDiscards | src/arduino/message.cpp:82-84 | Between frames, input without `<` is consumed and changes nothing. |
| Message.FrameBody | src/arduino/message.cpp:66-79 | Inside a frame the body bytes up to `>` land in consecutive cells, overflow bytes in the last one. The terminator goes in the cell after the body, or in the last cell when the body overflowed. The frame ends, the index returns to 0 and `newData` is raised. |
| Message.RecvSkipsNoise | src/arduino/message.cpp:63-84 | Noise before a `<` is dropped and the `<` opens a frame. |
| Message.ReceiveFrame | src/arduino/message.cpp:56-86 | A whole frame after noise leaves the first `min(|body|, 31)` body bytes followed by NUL in the buffer. Input after `>` is left unread. |
| Message.ReceiveFrameString | src/arduino/message.cpp:68-75 | The C string delivered is the body cut to 31 characters. |
| Message.Loop | src/arduino/message.cpp:40-52 | One pass of `loop` parses exactly when a frame completed. It parses the copy of the received string, leaves `receivedChars` as received and lowers `newData`. |
| Message.LoopHandshake | src/arduino/message.cpp:40-52 | A pass of `loop` over noise and a frame leaves the receiver idle, ready for the next frame. It returns the parse of the body cut to 31 characters. |
| CString.CStrOfTerminated | src/arduino/message.cpp:43 | `strcpy` copies the characters before the first NUL. |
| CString.StrtokIsFirstToken | src/arduino/message.cpp:98-117 | `strtok` returns NULL iff no non-empty token remains. Otherwise it returns the first non-empty token and leaves the rest. |
| CString.TokensOfWord | src/arduino/message.cpp:98-117 | A non-empty field free of the delimiter, followed by the delimiter, is the first token. |
| CString.AtoiOfSpacedDigits | src/arduino/message.cpp:101-102 | `atoi` skips the leading space and reads the decimal digits. |
| Fields.ParseIntsReadsTokens | src/arduino/message.cpp:101-117 | Reading n integer fields succeeds iff n tokens remain, and gives `atoi` of each. Otherwise it fails at the first missing field. |
| Fields.ParseData | src/arduino/message.cpp:94-122 | A parse yields a non-empty, comma-free name and six integers. It fails only for a missing name or a missing integer field 1..6. |
| Fields.ParseDataReadsTokens | src/arduino/message.cpp:94-117 | `parseData` succeeds iff the body has more than six tokens. The name is the first token and the integers are `atoi` of the next six, empty fields skipped. With k ≤ 6 tokens it fails at field k. |
| SerialCommand.AtoiOfIntToString | src/arduino/pySerialMultiple.py:66 | `atoi` reads back, after the separating space, the integer Python rendered. |
| SerialCommand.FrameCount | src/arduino/pySerialMultiple.py:67 | Each character occurs in a message as often as in the name, the separator and the payload, plus once more for `<` and once more for `>`. |
| SerialCommand.DirectionShape | src/arduino/pySerialMultiple.py:66 | A rendered direction of k numbers holds k-1 commas and no `<`, `>` or NUL. |
| SerialCommand.SendCommand | src/arduino/pySerialMultiple.py:65-68 | The message starts with `<` and ends with `>`. It holds exactly one `<`, one `>` and six commas. |
| SerialCommand.TokensOfDirection | src/arduino/pySerialMultiple.py:66 | The tokens of a rendered direction are its numbers, each with its leading space. |
| SerialCommand.ParseBody | src/arduino/message.cpp:94-117 | The body of a message with a plain name and six numbers parses back to that name and those numbers. |
| SerialCommand.FrameRoundTrip | src/arduino/pySerialMultiple.py:65-68 | A message with a plain name and six numbers, whose body fits 31 cells, is received after any noise. A pass of `loop` parses it back exactly and leaves the receiver idle. The input after the message is left unread. |
| SerialCommand.SendCommandRoundTrip | src/arduino/pySerialMultiple.py:65-68 | `sendCommand` of six 16-bit numbers whose message fits the buffer arrives as `Servo` and those numbers. |
| SerialCommand.CutBeforeSixthNumber | src/arduino/message.cpp:94-117 | A six-number message whose name and first five numbers exactly fill the 31 usable cells up to the fifth comma is received and rejected at integer field 6. The receiver is left idle and the input after the message unread. |
| SerialCommand.SendCommandCut | src/arduino/pySerialMultiple.py:65-68 | `sendCommand` whose first five numbers have three digits is rejected by the sketch at integer field 6, whatever the sixth number. |
| SerialCommand.TypicalServoCommandCut | src/arduino/pySerialMultiple.py:65-68 | The pose `sendCommand(180, 165, 180, 180, 180, 73)` is rejected by the sketch at integer field 6. |
| SerialCommand.BCommandDelivered | src/arduino/pySerialMultiple.py:47-51 | A `'b'` message whose typed direction is ASCII and holds no `>` or NUL arrives as `Servo, ` plus the direction, cut to 31 characters. |
| SerialCommand.DCommandLacksFields | src/arduino/pySerialMultiple.py:52-56 | A `'d'` message with one number has too few fields. The sketch's parse fails at integer field 2. |
| SerialCommand.DCommandRejected | src/arduino/pySerialMultiple.py:52-56 | A `'d'` message that fits the buffer is received whole after any noise. A pass of `loop` rejects it at integer field 2, leaves the input after it unread and leaves the receiver idle. |
| Message.BootIdle | src/arduino/message.cpp:12-27 | At power-on the receiver waits for a frame and its buffer holds the empty string. |
| Loudness.Step | src/lina.py:25-34 | A frame strictly above the threshold extends the run, and any other frame resets the counter to 0. The action fires iff the extended run reaches the trigger length, and firing resets the counter. The counter stays below the trigger length. |
| Loudness.LoudRunSuffix | src/lina.py:25-28 | The loud run is a suffix of the input made of frames above the threshold. |
| Loudness.CounterIsLoudRunModTrigger | src/lina.py:25-34 | After any input the counter is the current loud run modulo the trigger length. The action fired on the last frame iff that run is a positive multiple of the trigger length. |
| Loudness.FireNeedsConsecutiveLoudFrames | src/lina.py:25-34 | A fire happens only after at least 5 consecutive frames above the threshold. |
| Loudness.FireCountBound | src/custom/streamtest.py:20-27 | The counter is always below the trigger length, and fires times trigger length plus the counter never exceeds the frames seen. |
| Loudness.LinaFrame | src/lina.py:25-35 | The cry detector acts iff the peak exceeds 23000 with the counter at 4. Acting prints the warning, plays the ding, says "Lina, stop crying" and sleeps five seconds, in that order, and resets the counter to 0. |
| Loudness.LinaRun | src/lina.py:16-35 | Over any peaks the cry detector's counter agrees with the shared model and stays in 0..4. Each fire makes exactly four effects. |
| Loudness.StreamTestLoop | src/custom/streamtest.py:14-27 | The loop over the first 430 frames counts exactly the shared model's fires and ends with its counter. The counter is at most 4 and there are at most 86 fires. |

## Left out

- Threads, `threading.Event` and thread start (src/main.py:340-344). Each method, or each section of the worker loop, is one atomic action, and any interleaving of those actions is allowed.
- MicRecognizer.Recognize: the window between `is_set()` and `set()` (src/main.py:355-363) is closed. Two triggers cannot both pass the check. `MicProperties.DuplicateTriggerIgnored`, `MicProperties.RecognizeIdempotent` and the one-registration bound of `MicProperties.Inv` rely on this.
- MicRecognizer.Start: the window between `triggerer.start()` and the ready report (src/main.py:345-346) is closed. A trigger cannot fire before ready is reported. `MicProperties.StartReports` and `MicProperties.StartupCycle` rely on this.
- MicRecognizer.Complete: the window between `clear()` and the follow-on `recognize` or the ready report (src/main.py:382-387) is closed. No trigger can slip in between. The same lemmas and the bound of `MicProperties.Inv` rely on this.
- MicRecognizer.Complete: a `speech.Error` raised by the actor or the player partway through the dispatch is modelled as raised by `do_request`, before any dispatch call. An escaping exception likewise records none of the dispatch calls made before it.
- The recognizer, actor, player, recorder, trigger and `say` internals are not part of this model. Their calls are recorded in a trace. The actor's answer and `dialog_follow_on` are inputs to the completion action.
- Audio playback and its duration logging (src/main.py:401-407) appear only as one `PlayResponse` call carrying the response bytes.
- `do_recognition` before and after trigger selection is not modelled: actor construction, phrase registration, audio logging, the tty prompt and the sleep loop (src/main.py:238-245, 268-273). The tty prompt of `process_event` and its log line's text are left out too; the log line is one `LogEvent` effect.
- `do_assistant_library` start-up: credentials, the library import and `assistant.start()` (src/main.py:171-203, 231-233). The event stream is a parameter. `can_handle` is modelled as the set of phrases the actor accepts.
- StatusUi.Init: the file-existence checks are inputs and `~` expansion of the sound path is the identity.
- StatusUi.Report: a failure to open the FIFO is not modelled.
- Loudness.Step: the peak is an abstract integer per frame. The numpy average and the bar printing (src/lina.py:17-24, src/custom/streamtest.py:15-19) are left out. So are opening and tearing down the stream (src/lina.py:37-40, src/custom/streamtest.py:29-31). The cry detector's `time.sleep(5)` is modelled only as a `SleepSeconds(5)` effect.
- Fields.ParseData: integers are unbounded. `atoi` overflow of the sketch's 16-bit `int` is not modelled, so the round trip requires 16-bit values (`SerialCommand.IsInt16`). A NULL token passed to `strcpy`/`atoi` is undefined behaviour in the sketch and is modelled as a parse failure.
- SerialCommand.SendCommand: modelled for integer arguments only. Python's `%s` of other objects is not covered.
- Characters are Dafny `char`. `str.encode` is the identity, which is exact for the ASCII the protocol uses.
- `moveServo`, `sendParsedData`, `Serial.print`, `setup` and the Braccio calls (src/arduino/message.cpp:31-36, 48-49, 88-90, 126-139) are hardware output.
- The interactive menu of src/arduino/pySerialMultiple.py (the `'x'` command, `print_commands`, `test_connection`) and the USB write itself are I/O.
