/**
 * `process_event` of `do_assistant_library` in src/main.py: the events of
 * the Google Assistant library drive the same status reports as the
 * microphone loop, and a recognized phrase the local actor can handle is
 * taken away from the Assistant.  The phrases the actor's `can_handle`
 * accepts are a parameter.
 */
module AssistantEvents {
  import opened Wrappers
  import opened StatusUi

  /**
   * The library events the handler distinguishes.  An event's `args` is
   * `None` when the library passed no (or an empty) argument dictionary.
   */
  datatype LibEvent =
    | StartFinished
    | TurnStarted
    | EndOfUtterance
    | RecognizingSpeechFinished(text: Option<string>)
    | TurnFinished
    | AssistantError(isFatal: Option<bool>)
    | OtherEvent

  /** What the handler does with one event. */
  datatype Effect =
    | LogEvent
    | ReportStatus(status: Status)
    | StopConversation
    | ActorHandle(text: string)
    | Exit(code: int)

  /** A recognized phrase the local actor claims. */
  predicate Claimed(ev: LibEvent, canHandle: iset<string>) {
    ev.RecognizingSpeechFinished? && ev.text.Some? && ev.text.value in canHandle
  }

  /** An error the library marks fatal. */
  predicate Fatal(ev: LibEvent) {
    ev.AssistantError? && ev.isFatal == Some(true)
  }

  /** `process_event`. */
  function ProcessEvent(ev: LibEvent, canHandle: iset<string>, alwaysResponds: bool): (effects: seq<Effect>)
    ensures 1 <= |effects| <= 3 && effects[0] == LogEvent
    ensures ReportStatus(Ready) in effects <==> ev.StartFinished? || ev.TurnFinished?
    ensures ReportStatus(Listening) in effects <==> ev.TurnStarted?
    ensures ReportStatus(Thinking) in effects <==> ev.EndOfUtterance?
    // a claimed phrase goes to the actor, after the Assistant is stopped unless it must still answer
    ensures forall t :: ActorHandle(t) in effects <==> Claimed(ev, canHandle) && t == ev.text.value
    ensures StopConversation in effects <==> Claimed(ev, canHandle) && !alwaysResponds
    ensures StopConversation in effects ==> effects == [LogEvent, StopConversation, ActorHandle(ev.text.value)]
    ensures (exists c :: Exit(c) in effects) <==> Fatal(ev)
    ensures Fatal(ev) ==> effects == [LogEvent, Exit(1)]
    // the event is logged once, and each branch acts once: the actor handles a claimed phrase once
    ensures |effects| == 1 + (if StatusOf(ev).Some? then 1 else 0)
      + (if Claimed(ev, canHandle) then (if alwaysResponds then 1 else 2) else 0)
      + (if Fatal(ev) then 1 else 0)
  {
    [LogEvent] +
      match ev
      case StartFinished => [ReportStatus(Ready)]
      case TurnStarted => [ReportStatus(Listening)]
      case EndOfUtterance => [ReportStatus(Thinking)]
      case RecognizingSpeechFinished(text) =>
        if Claimed(ev, canHandle) then
          (if alwaysResponds then [] else [StopConversation]) + [ActorHandle(text.value)]
        else []
      case TurnFinished => [ReportStatus(Ready)]
      case AssistantError(isFatal) => if Fatal(ev) then [Exit(1)] else []
      case OtherEvent => []
  }

  /**
   * The event loop: every event is handled in turn, and `sys.exit` on a
   * fatal error ends the loop.
   */
  function ProcessEvents(evs: seq<LibEvent>, canHandle: iset<string>, alwaysResponds: bool): (effects: seq<Effect>)
    decreases |evs|
  {
    if evs == [] then []
    else
      var first := ProcessEvent(evs[0], canHandle, alwaysResponds);
      if Fatal(evs[0]) then first
      else first + ProcessEvents(evs[1..], canHandle, alwaysResponds)
  }

  /**
   * The status reports among the effects, in order: the same projection as
   * `MicProperties.Reports`, over this handler's `Effect` rather than the
   * coordinator's `Call`.
   */
  function Reports(effects: seq<Effect>): seq<Status>
    decreases |effects|
  {
    if effects == [] then []
    else (if effects[0].ReportStatus? then [effects[0].status] else []) + Reports(effects[1..])
  }

  /** The status an event maps to, if any: the reference table of the handler. */
  function StatusOf(ev: LibEvent): Option<Status>
  {
    if ev.StartFinished? || ev.TurnFinished? then Some(Ready)
    else if ev.TurnStarted? then Some(Listening)
    else if ev.EndOfUtterance? then Some(Thinking)
    else None
  }

  /** The statuses of the events handled before the loop stops. */
  function StatusTrail(evs: seq<LibEvent>): seq<Status>
    decreases |evs|
  {
    if evs == [] then []
    else
      (if StatusOf(evs[0]).Some? then [StatusOf(evs[0]).value] else [])
        + (if Fatal(evs[0]) then [] else StatusTrail(evs[1..]))
  }

  lemma {:induction false} ReportsAppend(a: seq<Effect>, b: seq<Effect>)
    ensures Reports(a + b) == Reports(a) + Reports(b)
    decreases |a|
  {
    if a == [] {
      assert a + b == b;
    } else {
      assert (a + b)[0] == a[0];
      assert (a + b)[1..] == a[1..] + b;
      ReportsAppend(a[1..], b);
    }
  }

  /** One event reports exactly the status the reference table gives it. */
  lemma EventReports(ev: LibEvent, canHandle: iset<string>, alwaysResponds: bool)
    ensures Reports(ProcessEvent(ev, canHandle, alwaysResponds))
      == (if StatusOf(ev).Some? then [StatusOf(ev).value] else [])
  {
    var e := ProcessEvent(ev, canHandle, alwaysResponds);
    var tail := e[1..];
    assert e == [LogEvent] + tail;
    ReportsAppend([LogEvent], tail);
    assert Reports([LogEvent]) == [] by {
      assert [LogEvent][1..] == [];
    }
    if |tail| == 2 {
      assert tail == [StopConversation] + [ActorHandle(ev.text.value)];
      ReportsAppend([StopConversation], [ActorHandle(ev.text.value)]);
      assert [StopConversation][1..] == [] && [ActorHandle(ev.text.value)][1..] == [];
    } else if |tail| == 1 {
      assert tail[1..] == [];
    }
  }

  /**
   * The status reports of a whole event stream are those of the reference
   * table, in event order, up to the first fatal error; the actor's choice
   * and the `always_responds` option never change them.
   */
  lemma {:induction false} StreamReports(evs: seq<LibEvent>, canHandle: iset<string>, alwaysResponds: bool)
    ensures Reports(ProcessEvents(evs, canHandle, alwaysResponds)) == StatusTrail(evs)
    decreases |evs|
  {
    if evs != [] {
      EventReports(evs[0], canHandle, alwaysResponds);
      if !Fatal(evs[0]) {
        StreamReports(evs[1..], canHandle, alwaysResponds);
        ReportsAppend(ProcessEvent(evs[0], canHandle, alwaysResponds), ProcessEvents(evs[1..], canHandle, alwaysResponds));
      }
    }
  }

  /**
   * A conversation turn reports listening, thinking and ready, the cycle
   * the microphone loop reports for one request.
   */
  lemma TurnReports(text: Option<string>, canHandle: iset<string>, alwaysResponds: bool)
    ensures Reports(ProcessEvents([TurnStarted, EndOfUtterance, RecognizingSpeechFinished(text), TurnFinished], canHandle, alwaysResponds))
      == [Listening, Thinking, Ready]
  {
    var evs := [TurnStarted, EndOfUtterance, RecognizingSpeechFinished(text), TurnFinished];
    StreamReports(evs, canHandle, alwaysResponds);
    TurnTrail(text);
  }

  lemma TurnTrail(text: Option<string>)
    ensures StatusTrail([TurnStarted, EndOfUtterance, RecognizingSpeechFinished(text), TurnFinished])
      == [Listening, Thinking, Ready]
  {
    var evs := [TurnStarted, EndOfUtterance, RecognizingSpeechFinished(text), TurnFinished];
    assert evs[1..] == [EndOfUtterance, RecognizingSpeechFinished(text), TurnFinished];
    assert evs[1..][1..] == [RecognizingSpeechFinished(text), TurnFinished];
    assert evs[1..][1..][1..] == [TurnFinished];
    assert StatusTrail([TurnFinished]) == [Ready] by {
      assert [TurnFinished][1..] == [];
    }
    assert StatusTrail(evs[1..][1..]) == [Ready];
    assert StatusTrail(evs[1..]) == [Thinking, Ready];
  }

  /** An exit, if any, is the last effect. */
  predicate ExitLast(effects: seq<Effect>) {
    forall i :: 0 <= i < |effects| - 1 ==> !effects[i].Exit?
  }

  /** Nothing is handled after a fatal error: it is the last effect of the stream. */
  lemma {:induction false} ExitEndsStream(evs: seq<LibEvent>, canHandle: iset<string>, alwaysResponds: bool)
    ensures ExitLast(ProcessEvents(evs, canHandle, alwaysResponds))
    decreases |evs|
  {
    if evs != [] && !Fatal(evs[0]) {
      var first := ProcessEvent(evs[0], canHandle, alwaysResponds);
      var rest := ProcessEvents(evs[1..], canHandle, alwaysResponds);
      var all: seq<Effect> := first + rest;
      ExitEndsStream(evs[1..], canHandle, alwaysResponds);
      forall i: int | |first| <= i < |all| - 1
        ensures !all[i].Exit?
      {
        assert all[i] == rest[i - |first|];
      }
    }
  }
}
