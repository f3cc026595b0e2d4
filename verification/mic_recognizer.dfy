/**
 * `SyncMicRecognizer` of src/main.py: the trigger -> listen -> think ->
 * ready loop.  The trigger thread, the recognizer's endpointer thread and
 * the background worker each act on one shared state record; every
 * method (or loop section) of the class is one atomic action, and a run
 * is any interleaving of actions.  The collaborators (status reporter,
 * recognizer, recorder, actor, player, trigger, `say`) are not modelled:
 * the calls made on them are recorded, in order, in a trace.
 */
module MicRecognizer {
  import opened Wrappers
  import opened StatusUi
  import opened Sequences

  newtype Byte = b: int | 0 <= b < 256

  /** What one recognition request returns. */
  datatype RecognitionResult = RecognitionResult(transcript: Option<string>, responseAudio: Option<seq<Byte>>)

  /** Python truthiness: a transcript that is present and non-empty. */
  predicate HasTranscript(r: RecognitionResult) {
    r.transcript.Some? && r.transcript.value != []
  }

  /** Python truthiness: response audio that is present and non-empty. */
  predicate HasAudio(r: RecognitionResult) {
    r.responseAudio.Some? && r.responseAudio.value != []
  }

  /** The calls the coordinator makes on its collaborators. */
  datatype Call =
    | Report(status: Status)           // status_ui.status(...)
    | ResetRecognizer                  // recognizer.reset()
    | AddProcessor                     // recorder.add_processor(recognizer)
    | RemoveProcessor                  // recorder.remove_processor(recognizer)
    | LogRecognizing
    | DoRequest                        // recognizer.do_request()
    | ActorHandle(text: string)        // actor.handle(transcript)
    | LogHandled(text: string)
    | PlayResponse(audio: seq<Byte>)   // player.play_bytes(...)
    | LogUnhandled(text: string)
    | LogNoCommand
    | LogError                         // logger.exception on speech.Error
    | SayApology                       // say('Unexpected error. ...')
    | StartTrigger                     // triggerer.start()
    | StartWorker                      // Thread(target=_recognize).start()
    | EndAudio                         // recognizer.end_audio()

  /** What an accepted `recognize` does, in order. */
  const AcceptCalls: seq<Call> := [Report(Listening), ResetRecognizer, AddProcessor]

  /** What `endpointer_cb` does, in order. */
  const ThinkingCalls: seq<Call> := [RemoveProcessor, Report(Thinking)]

  /** The start of a request in `_recognize`. */
  const RequestCalls: seq<Call> := [LogRecognizing, DoRequest]

  /** The end of a cycle without follow-on: restart the trigger, report ready. */
  const ReadyCalls: seq<Call> := [StartTrigger, Report(Ready)]

  /**
   * `_handle_result`: the actor's answer `handled` is an input, consulted
   * only when there is a transcript.
   */
  function HandleResult(result: RecognitionResult, handled: bool, alwaysResponds: bool): (calls: seq<Call>)
    // the actor is called first, exactly when there is a transcript, and only then
    ensures |calls| >= 1
    ensures HasTranscript(result) ==> calls[0] == ActorHandle(result.transcript.value)
    ensures forall i :: 0 <= i < |calls| && calls[i].ActorHandle? ==> i == 0 && HasTranscript(result)
    // only the response audio is ever played
    ensures forall c :: c in calls && c.PlayResponse? ==> HasAudio(result) && c.audio == result.responseAudio.value
    ensures HasAudio(result) ==>
      (PlayResponse(result.responseAudio.value) in calls <==> !HasTranscript(result) || !handled || alwaysResponds)
    // the log line names the branch taken
    ensures HasTranscript(result) ==> (LogHandled(result.transcript.value) in calls <==> handled)
    ensures HasTranscript(result) ==>
      (LogUnhandled(result.transcript.value) in calls <==> !handled && !HasAudio(result))
    ensures LogNoCommand in calls <==> !HasTranscript(result) && !HasAudio(result)
    // exactly one branch of the if/elif chain is taken
    ensures !HasTranscript(result) ==>
      calls == (if HasAudio(result) then [PlayResponse(result.responseAudio.value)] else [LogNoCommand])
    ensures HasTranscript(result) ==>
      |calls| == (if handled && HasAudio(result) && alwaysResponds then 3 else 2)
    // a handled command is logged before its response is played
    ensures HasTranscript(result) && handled && HasAudio(result) && alwaysResponds ==>
      calls[1] == LogHandled(result.transcript.value) && calls[2] == PlayResponse(result.responseAudio.value)
    // the dispatch only calls the actor, the logger and the player
    ensures forall c :: c in calls ==>
      c.ActorHandle? || c.LogHandled? || c.PlayResponse? || c.LogUnhandled? || c.LogNoCommand?
  {
    if HasTranscript(result) then
      var t := result.transcript.value;
      [ActorHandle(t)] +
        (if handled then
           [LogHandled(t)] + (if HasAudio(result) && alwaysResponds then [PlayResponse(result.responseAudio.value)] else [])
         else if HasAudio(result) then [PlayResponse(result.responseAudio.value)]
         else [LogUnhandled(t)])
    else if HasAudio(result) then [PlayResponse(result.responseAudio.value)]
    else [LogNoCommand]
  }

  /** The worker thread's position in `_recognize`. */
  datatype Worker =
    | Waiting      // blocked in recognizer_event.wait()
    | Requesting   // inside do_request() and the dispatch that follows
    | Exited       // left the loop
    | Dead         // the thread ended on an exception the loop does not catch

  /**
   * The shared state: `running`, the single-slot `recognizer_event`, the
   * worker's position, the `assistant_always_responds` option and the trace
   * of calls made so far.
   */
  datatype Mic = Mic(running: bool, event: bool, worker: Worker, alwaysResponds: bool, calls: seq<Call>)

  /**
   * How one request ended: a result with the actor's answer, a
   * `speech.Error`, or any other exception from the request, the actor or
   * the player, which escapes `_recognize` and ends the worker thread.
   */
  datatype Outcome = Returned(result: RecognitionResult, handled: bool) | Raised | Escaped

  /** The atomic actions the three threads and the main program take. */
  datatype Action =
    | Trigger                                   // the trigger calls recognize()
    | Endpointer                                // the recognizer calls endpointer_cb()
    | WorkerWake                                // the worker returns from wait()
    | WorkerComplete(outcome: Outcome, followOn: bool)  // the worker finishes a request
    | Shutdown                                  // __exit__

  /** `__enter__`: mark running, start the worker, start the trigger and report ready. */
  function Start(alwaysResponds: bool): (m: Mic)
    ensures m.running && !m.event && m.worker == Waiting && m.alwaysResponds == alwaysResponds
    ensures Count(m.calls, AddProcessor) == 0 && Count(m.calls, DoRequest) == 0
    // the worker is started first, the trigger is started, and ready is the only status reported
    ensures |m.calls| == 3 && m.calls[0] == StartWorker && StartTrigger in m.calls
    ensures m.calls[|m.calls| - 1] == Report(Ready)
    ensures forall i :: 0 <= i < |m.calls| - 1 ==> !m.calls[i].Report?
  {
    Mic(true, false, Waiting, alwaysResponds, [StartWorker, StartTrigger, Report(Ready)])
  }

  /**
   * `recognize`: a duplicate trigger while the event is set changes
   * nothing; otherwise report listening, reset the recognizer, register it
   * as the recorder's processor and set the event, in that order.
   */
  function Recognize(m: Mic): (m': Mic)
    ensures m.event ==> m' == m
    ensures m'.event
    ensures m'.running == m.running && m'.worker == m.worker && m'.alwaysResponds == m.alwaysResponds
    ensures |m.calls| <= |m'.calls| && m'.calls[..|m.calls|] == m.calls
    ensures m'.calls == m.calls <==> m.event
    ensures !m.event ==> m'.calls[|m.calls|..] == [Report(Listening), ResetRecognizer, AddProcessor]
  {
    if m.event then m
    else m.(event := true, calls := m.calls + AcceptCalls)
  }

  /** `endpointer_cb`: deregister the processor, then report thinking. */
  function EndpointerCb(m: Mic): (m': Mic)
    ensures m'.running == m.running && m'.event == m.event && m'.worker == m.worker
    ensures m'.alwaysResponds == m.alwaysResponds
    ensures |m'.calls| == |m.calls| + 2 && m'.calls[..|m.calls|] == m.calls
    ensures m'.calls[|m.calls|] == RemoveProcessor && m'.calls[|m.calls| + 1] == Report(Thinking)
  {
    m.(calls := m.calls + ThinkingCalls)
  }

  /**
   * The worker returns from `wait()` once the event is set.  If `running`
   * was cleared it leaves the loop without a request; otherwise it starts
   * `do_request`, leaving the event set.
   */
  function Wake(m: Mic): (m': Mic)
    ensures m.worker != Waiting || !m.event ==> m' == m
    ensures m'.running == m.running && m'.event == m.event && m'.alwaysResponds == m.alwaysResponds
    ensures |m.calls| <= |m'.calls| && m'.calls[..|m.calls|] == m.calls
    ensures m.worker == Waiting && m.event ==> m'.worker == (if m.running then Requesting else Exited)
    // a request is started exactly when a live worker is woken
    ensures m'.calls != m.calls <==> m.worker == Waiting && m.event && m.running
    ensures m'.calls != m.calls ==> m'.calls[|m.calls|..] == [LogRecognizing, DoRequest]
  {
    if m.worker != Waiting || !m.event then m
    else if !m.running then m.(worker := Exited)
    else m.(worker := Requesting, calls := m.calls + RequestCalls)
  }

  /** The calls of the `try`/`except speech.Error` block once `do_request` has ended. */
  function Dispatch(outcome: Outcome, alwaysResponds: bool): seq<Call>
  {
    match outcome
    case Returned(result, handled) => HandleResult(result, handled, alwaysResponds)
    case Raised => [LogError, SayApology]
    case Escaped => []
  }

  /**
   * The rest of a worker iteration: dispatch, clear the event, then either
   * re-arm through `recognize` (dialog follow-on) or restart the trigger
   * and report ready; the loop then continues only while `running`.
   */
  function Complete(m: Mic, outcome: Outcome, followOn: bool): (m': Mic)
    ensures m.worker != Requesting ==> m' == m
    ensures m.worker == Requesting && !outcome.Escaped? ==>
      && m'.running == m.running && m'.alwaysResponds == m.alwaysResponds
      && m'.worker == (if m.running then Waiting else Exited)
      && m'.event == followOn
    // an escaping exception ends the thread before the event is cleared or ready reported
    ensures m.worker == Requesting && outcome.Escaped? ==>
      && m'.worker == Dead && m'.event == m.event && m'.calls == m.calls
      && m'.running == m.running && m'.alwaysResponds == m.alwaysResponds
  {
    if m.worker != Requesting then m
    else if outcome.Escaped? then m.(worker := Dead)
    else
      var dispatched := m.(calls := m.calls + Dispatch(outcome, m.alwaysResponds), event := false);
      var next :=
        if followOn then Recognize(dispatched)
        else dispatched.(calls := dispatched.calls + ReadyCalls);
      next.(worker := if next.running then Waiting else Exited)
  }

  /** `__exit__`: clear `running`, set the event to wake the worker, end the audio session. */
  function Stop(m: Mic): (m': Mic)
    ensures !m'.running && m'.event && m'.worker == m.worker && m'.alwaysResponds == m.alwaysResponds
    ensures |m'.calls| == |m.calls| + 1 && m'.calls[..|m.calls|] == m.calls && m'.calls[|m.calls|] == EndAudio
  {
    m.(running := false, event := true, calls := m.calls + [EndAudio])
  }

  function Step(m: Mic, a: Action): Mic
  {
    match a
    case Trigger => Recognize(m)
    case Endpointer => EndpointerCb(m)
    case WorkerWake => Wake(m)
    case WorkerComplete(outcome, followOn) => Complete(m, outcome, followOn)
    case Shutdown => Stop(m)
  }

  /** The state after the actions `acts`, taken in order. */
  function Run(m: Mic, acts: seq<Action>): Mic
    decreases |acts|
  {
    if acts == [] then m else Run(Step(m, acts[0]), acts[1..])
  }

  /** Trigger kinds `do_recognition` knows. */
  datatype TriggerKind = Gpio(channel: nat) | Clap | Custom

  /**
   * The trigger selection of `do_recognition`: the kind and the prompt for
   * a known name, or the error logged for an unknown one.
   */
  function SelectTrigger(name: string): (r: Result<(TriggerKind, string), string>)
    ensures r.Success? <==> name == "gpio" || name == "clap" || name == "custom"
    ensures name == "gpio" ==> r == Success((Gpio(23), "Press the button on GPIO 23"))
    ensures name == "clap" ==> r == Success((Clap, "Clap your hands"))
    ensures name == "custom" ==> r == Success((Custom, "Clap your hands"))
    ensures r.Failure? ==> r.error == "Unknown trigger '" + name + "'"
  {
    if name == "gpio" then Success((Gpio(23), "Press the button on GPIO 23"))
    else if name == "clap" then Success((Clap, "Clap your hands"))
    else if name == "custom" then Success((Custom, "Clap your hands"))
    else Failure("Unknown trigger '" + name + "'")
  }

  /** The command-line name of a trigger kind. */
  function KindName(k: TriggerKind): string {
    match k
    case Gpio(_) => "gpio"
    case Clap => "clap"
    case Custom => "custom"
  }

  /**
   * Selection and naming are inverse: a selected trigger is named by the
   * name that selected it, and every kind's name selects a trigger of that
   * kind.
   */
  lemma SelectTriggerByName(name: string, k: TriggerKind)
    ensures SelectTrigger(name).Success? ==> KindName(SelectTrigger(name).value.0) == name
    ensures SelectTrigger(KindName(k)).Success?
    ensures KindName(SelectTrigger(KindName(k)).value.0) == KindName(k)
  {
  }

  /**
   * `do_recognition` up to `__enter__`: an unknown trigger returns before
   * the coordinator exists, so no worker is ever started.
   */
  function DoRecognition(triggerName: string, alwaysResponds: bool): (r: Option<Mic>)
    ensures r.Some? <==> SelectTrigger(triggerName).Success?
    ensures r.Some? ==> r.value.running && r.value.worker == Waiting && StartWorker in r.value.calls
  {
    match SelectTrigger(triggerName)
    case Success(_) => Some(Start(alwaysResponds))
    case Failure(_) => None
  }
}
