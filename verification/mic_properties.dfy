/**
 * Safety and ordering facts about the coordinator of `MicRecognizer`, over
 * every interleaving of the trigger, endpointer, worker and shutdown
 * actions.
 */
module MicProperties {
  import opened Wrappers
  import opened StatusUi
  import opened Sequences
  import opened MicRecognizer

  /** Accepted triggers: every accepted `recognize` registers the processor once. */
  function Registered(m: Mic): nat { Count(m.calls, AddProcessor) }

  /** Requests the worker has started. */
  function Requests(m: Mic): nat { Count(m.calls, DoRequest) }

  /**
   * The cycle invariant.  At most one registration is ahead of the
   * requests; a clear event means every registration has been served; a
   * request in flight holds the event; a live waiting worker with the event
   * set has exactly one registration to serve; after shutdown a waiting
   * worker will find the event set; a dead worker left the event set with
   * its request served; and "listening" is reported exactly once per
   * registration.
   */
  ghost predicate Inv(m: Mic) {
    var a := Registered(m);
    var q := Requests(m);
    && q <= a <= q + 1
    && (!m.event ==> a == q)
    && (m.worker == Requesting ==> m.event && a == q)
    && (m.running && m.worker == Waiting && m.event ==> a == q + 1)
    && (!m.running && m.worker == Waiting ==> m.event)
    && (m.worker == Exited ==> !m.running)
    && (m.worker == Dead ==> m.event && a == q)
    && Count(m.calls, Report(Listening)) == a
  }

  /** Counts of the three calls the invariant tracks. */
  ghost predicate SameCounts(extra: seq<Call>, a: nat, q: nat) {
    && Count(extra, AddProcessor) == a
    && Count(extra, DoRequest) == q
    && Count(extra, Report(Listening)) == a
  }

  /** Appending calls adds their counts. */
  lemma AppendCounts(m: Mic, extra: seq<Call>, a: nat, q: nat)
    requires SameCounts(extra, a, q)
    ensures Registered(m.(calls := m.calls + extra)) == Registered(m) + a
    ensures Requests(m.(calls := m.calls + extra)) == Requests(m) + q
    ensures Count(m.calls + extra, Report(Listening)) == Count(m.calls, Report(Listening)) + a
  {
    CountAppend(m.calls, extra, AddProcessor);
    CountAppend(m.calls, extra, DoRequest);
    CountAppend(m.calls, extra, Report(Listening));
  }

  /** Counts of a concatenation add up. */
  lemma SumCounts(x: seq<Call>, y: seq<Call>, ax: nat, qx: nat, ay: nat, qy: nat)
    requires SameCounts(x, ax, qx) && SameCounts(y, ay, qy)
    ensures SameCounts(x + y, ax + ay, qx + qy)
  {
    CountAppend(x, y, AddProcessor);
    CountAppend(x, y, DoRequest);
    CountAppend(x, y, Report(Listening));
  }

  lemma AcceptTally()
    ensures SameCounts(AcceptCalls, 1, 0)
  {
    assert AcceptCalls[1..] == [ResetRecognizer, AddProcessor];
    assert AcceptCalls[1..][1..] == [AddProcessor];
  }

  lemma AcceptReports()
    ensures Reports(AcceptCalls) == [Listening]
  {
    assert AcceptCalls[1..] == [ResetRecognizer, AddProcessor];
    assert AcceptCalls[1..][1..] == [AddProcessor];
  }

  lemma ThinkingTally()
    ensures SameCounts(ThinkingCalls, 0, 0)
  {
    assert ThinkingCalls[1..] == [Report(Thinking)];
  }

  lemma ThinkingReports()
    ensures Reports(ThinkingCalls) == [Thinking]
  {
    assert ThinkingCalls[1..] == [Report(Thinking)];
  }

  lemma RequestTally()
    ensures SameCounts(RequestCalls, 0, 1)
  {
    assert RequestCalls[1..] == [DoRequest];
  }

  lemma RequestReports()
    ensures Reports(RequestCalls) == []
  {
    assert RequestCalls[1..] == [DoRequest];
  }

  lemma ReadyTally()
    ensures SameCounts(ReadyCalls, 0, 0)
  {
    assert ReadyCalls[1..] == [Report(Ready)];
  }

  lemma ReadyReports()
    ensures Reports(ReadyCalls) == [Ready]
  {
    assert ReadyCalls[1..] == [Report(Ready)];
  }

  lemma StartInv(alwaysResponds: bool)
    ensures Inv(Start(alwaysResponds))
  {
  }

  lemma RecognizeInv(m: Mic)
    requires Inv(m)
    ensures Inv(Recognize(m))
  {
    if !m.event {
      AcceptTally();
      AppendCounts(m, AcceptCalls, 1, 0);
    }
  }

  lemma EndpointerInv(m: Mic)
    requires Inv(m)
    ensures Inv(EndpointerCb(m))
  {
    ThinkingTally();
    AppendCounts(m, ThinkingCalls, 0, 0);
  }

  lemma WakeInv(m: Mic)
    requires Inv(m)
    ensures Inv(Wake(m))
  {
    if m.worker == Waiting && m.event && m.running {
      RequestTally();
      AppendCounts(m, RequestCalls, 0, 1);
    }
  }

  /** Calls that register nothing, request nothing and report no status add to no count. */
  lemma Untracked(extra: seq<Call>)
    requires forall c :: c in extra ==> !c.AddProcessor? && !c.DoRequest? && !c.Report?
    ensures SameCounts(extra, 0, 0)
  {
  }

  /** The dispatch never registers, requests or reports listening. */
  lemma DispatchCounts(outcome: Outcome, alwaysResponds: bool)
    ensures SameCounts(Dispatch(outcome, alwaysResponds), 0, 0)
  {
    match outcome
    case Returned(result, handled) =>
      Untracked(HandleResult(result, handled, alwaysResponds));
    case Raised =>
      Untracked([LogError, SayApology]);
    case Escaped =>
  }

  lemma CompleteInv(m: Mic, outcome: Outcome, followOn: bool)
    requires Inv(m)
    ensures Inv(Complete(m, outcome, followOn))
  {
    if m.worker == Requesting && !outcome.Escaped? {
      CompletedInv(m, outcome, followOn);
    }
  }

  /** A request that returns or raises keeps the invariant, with or without follow-on. */
  lemma CompletedInv(m: Mic, outcome: Outcome, followOn: bool)
    requires Inv(m) && m.worker == Requesting && !outcome.Escaped?
    ensures Inv(Complete(m, outcome, followOn))
  {
    var d := Dispatch(outcome, m.alwaysResponds);
    var tail := if followOn then AcceptCalls else ReadyCalls;
    var k := if followOn then 1 else 0;
    var m' := m.(calls := m.calls + d + tail, event := followOn, worker := if m.running then Waiting else Exited);
    assert Registered(m') == Registered(m) + k && Requests(m') == Requests(m)
      && Count(m'.calls, Report(Listening)) == Registered(m) + k by {
      DispatchCounts(outcome, m.alwaysResponds);
      if followOn {
        AcceptTally();
      } else {
        ReadyTally();
      }
      ExtendCounts(m.calls, d, tail, k);
    }
    assert Inv(m');
    CompleteShape(m, outcome, followOn);
  }

  lemma StopInv(m: Mic)
    requires Inv(m)
    ensures Inv(Stop(m))
  {
    AppendCounts(m, [EndAudio], 0, 0) by {
      assert [EndAudio][1..] == [];
    }
  }

  lemma StepInv(m: Mic, a: Action)
    requires Inv(m)
    ensures Inv(Step(m, a))
  {
    match a
    case Trigger => RecognizeInv(m);
    case Endpointer => EndpointerInv(m);
    case WorkerWake => WakeInv(m);
    case WorkerComplete(outcome, followOn) => CompleteInv(m, outcome, followOn);
    case Shutdown => StopInv(m);
  }

  /**
   * Every interleaving keeps the invariant: in particular the worker never
   * starts a request that no accepted trigger asked for, and never runs two
   * requests for one trigger.
   */
  lemma {:induction false} RunInv(m: Mic, acts: seq<Action>)
    requires Inv(m)
    ensures Inv(Run(m, acts))
    ensures Requests(Run(m, acts)) <= Registered(Run(m, acts)) <= Requests(Run(m, acts)) + 1
    decreases |acts|
  {
    if acts != [] {
      StepInv(m, acts[0]);
      RunInv(Step(m, acts[0]), acts[1..]);
    }
  }

  /** From power-up, on any interleaving. */
  lemma ReachableInv(alwaysResponds: bool, acts: seq<Action>)
    ensures Inv(Run(Start(alwaysResponds), acts))
  {
    StartInv(alwaysResponds);
    RunInv(Start(alwaysResponds), acts);
  }

  /**
   * The status reports in a trace, in order.  The coordinator's trace holds
   * `Call`s and the event handler's holds `Effect`s, two unrelated
   * datatypes, so `AssistantEvents` keeps its own projection.
   */
  function Reports(calls: seq<Call>): (rs: seq<Status>)
    ensures |rs| <= |calls|
  {
    if calls == [] then []
    else (if calls[0].Report? then [calls[0].status] else []) + Reports(calls[1..])
  }

  lemma {:induction false} ReportsAppend(a: seq<Call>, b: seq<Call>)
    ensures Reports(a + b) == Reports(a) + Reports(b)
    decreases |a|
  {
    if a != [] {
      assert (a + b)[0] == a[0];
      assert (a + b)[1..] == a[1..] + b;
      ReportsAppend(a[1..], b);
    } else {
      assert a + b == b;
    }
  }

  /** A trigger while the event is set, from any thread, changes nothing at all. */
  lemma DuplicateTriggerIgnored(m: Mic, acts: seq<Action>)
    requires m.event
    ensures Run(m, [Trigger] + acts) == Run(m, acts)
  {
    assert ([Trigger] + acts)[1..] == acts;
  }

  /** `recognize` is idempotent: the event is a single slot. */
  lemma RecognizeIdempotent(m: Mic)
    ensures Recognize(Recognize(m)) == Recognize(m)
    ensures Registered(Recognize(m)) <= Registered(m) + 1
  {
    if !m.event {
      AcceptTally();
      AppendCounts(m, AcceptCalls, 1, 0);
    }
  }

  /** Reports of a trace extended by `extra`. */
  lemma ReportsExtend(m: Mic, extra: seq<Call>, rs: seq<Status>)
    requires Reports(extra) == rs
    ensures Reports(m.calls + extra) == Reports(m.calls) + rs
  {
    ReportsAppend(m.calls, extra);
  }

  /** The dispatch reports no status. */
  lemma DispatchReports(outcome: Outcome, alwaysResponds: bool)
    ensures Reports(Dispatch(outcome, alwaysResponds)) == []
  {
    var d := Dispatch(outcome, alwaysResponds);
    assert forall c :: c in d ==> !c.Report?;
    NoReports(d);
  }

  lemma {:induction false} NoReports(calls: seq<Call>)
    requires forall c :: c in calls ==> !c.Report?
    ensures Reports(calls) == []
    decreases |calls|
  {
    if calls != [] {
      assert calls[0] in calls;
      NoReports(calls[1..]);
    }
  }

  /**
   * The events of one ordinary cycle: a trigger, then the end of speech
   * and the worker's wake-up in either order, then the result.  In the
   * `eager` order the worker returns from `wait()` as soon as the trigger
   * sets the event, while the user is still speaking.
   */
  function Cycle(outcome: Outcome, eager: bool): seq<Action>
  {
    if eager then [Trigger, WorkerWake, Endpointer, WorkerComplete(outcome, false)]
    else [Trigger, Endpointer, WorkerWake, WorkerComplete(outcome, false)]
  }

  /** The calls of a cycle before its dispatch. */
  function Prefix(eager: bool): seq<Call>
  {
    if eager then AcceptCalls + RequestCalls + ThinkingCalls
    else AcceptCalls + ThinkingCalls + RequestCalls
  }

  /** The calls of one ordinary cycle around the dispatch `d`. */
  function CycleCalls(d: seq<Call>, eager: bool): seq<Call>
  {
    Prefix(eager) + d + ReadyCalls
  }

  /** Trigger, end of speech and wake take an idle coordinator to a request in flight. */
  lemma CycleToRequest(m: Mic, rest: seq<Action>)
    requires m.running && !m.event && m.worker == Waiting
    ensures Run(m, [Trigger, Endpointer, WorkerWake] + rest)
      == Run(m.(event := true, worker := Requesting, calls := m.calls + Prefix(false)), rest)
  {
    var acts := [Trigger, Endpointer, WorkerWake] + rest;
    var m1 := Recognize(m);
    var m2 := EndpointerCb(m1);
    var m3 := Wake(m2);
    assert acts[0] == Trigger && acts[1..][0] == Endpointer && acts[1..][1..][0] == WorkerWake;
    assert acts[1..][1..][1..] == rest;
    assert Run(m, acts) == Run(m1, acts[1..]);
    assert Run(m1, acts[1..]) == Run(m2, acts[1..][1..]);
    assert Run(m2, acts[1..][1..]) == Run(m3, rest);
    assert m.calls + AcceptCalls + ThinkingCalls + RequestCalls == m.calls + Prefix(false);
  }

  /** Trigger, wake and end of speech take an idle coordinator to a request in flight. */
  lemma EagerToRequest(m: Mic, rest: seq<Action>)
    requires m.running && !m.event && m.worker == Waiting
    ensures Run(m, [Trigger, WorkerWake, Endpointer] + rest)
      == Run(m.(event := true, worker := Requesting, calls := m.calls + Prefix(true)), rest)
  {
    var m2 := m.(event := true, worker := Requesting, calls := m.calls + AcceptCalls + RequestCalls);
    assert [Trigger, WorkerWake, Endpointer] + rest == [Trigger, WorkerWake] + ([Endpointer] + rest);
    TriggerThenWake(m, [Endpointer] + rest);
    assert Run(m2, [Endpointer] + rest) == Run(EndpointerCb(m2), rest) by {
      assert ([Endpointer] + rest)[0] == Endpointer && ([Endpointer] + rest)[1..] == rest;
    }
    assert m.calls + AcceptCalls + RequestCalls + ThinkingCalls == m.calls + Prefix(true);
  }

  /** Either order of end of speech and wake-up leaves the cycle's request in flight. */
  lemma CycleReachesRequest(m: Mic, outcome: Outcome, eager: bool)
    requires m.running && !m.event && m.worker == Waiting
    ensures Run(m, Cycle(outcome, eager))
      == Run(m.(event := true, worker := Requesting, calls := m.calls + Prefix(eager)), [WorkerComplete(outcome, false)])
  {
    var done := [WorkerComplete(outcome, false)];
    if eager {
      assert Cycle(outcome, eager) == [Trigger, WorkerWake, Endpointer] + done;
      EagerToRequest(m, done);
    } else {
      assert Cycle(outcome, eager) == [Trigger, Endpointer, WorkerWake] + done;
      CycleToRequest(m, done);
    }
  }

  /** A request that returns or raises, with no follow-on, ends the cycle on a live coordinator. */
  lemma FinishCycle(m: Mic, outcome: Outcome)
    requires m.running && m.worker == Requesting && !outcome.Escaped?
    ensures Run(m, [WorkerComplete(outcome, false)])
      == m.(calls := m.calls + Dispatch(outcome, m.alwaysResponds) + ReadyCalls, event := false, worker := Waiting)
  {
    CompleteShape(m, outcome, false);
    assert [WorkerComplete(outcome, false)][1..] == [];
  }

  lemma Regroup(a: seq<Call>, b: seq<Call>, c: seq<Call>, e: seq<Call>)
    ensures a + b + c + e == a + (b + c + e)
  {
  }

  lemma CycleRun(m: Mic, outcome: Outcome, eager: bool)
    requires m.running && !m.event && m.worker == Waiting && !outcome.Escaped?
    ensures Run(m, Cycle(outcome, eager)) == m.(calls := m.calls + CycleCalls(Dispatch(outcome, m.alwaysResponds), eager))
  {
    var d := Dispatch(outcome, m.alwaysResponds);
    var m3 := m.(event := true, worker := Requesting, calls := m.calls + Prefix(eager));
    CycleReachesRequest(m, outcome, eager);
    FinishCycle(m3, outcome);
    Regroup(m.calls, Prefix(eager), d, ReadyCalls);
  }

  /** The calls before the dispatch register once and request once, in either order. */
  lemma PrefixTally(eager: bool)
    ensures SameCounts(Prefix(eager), 1, 1)
  {
    AcceptTally();
    ThinkingTally();
    RequestTally();
    if eager {
      SumCounts(AcceptCalls, RequestCalls, 1, 0, 0, 1);
      SumCounts(AcceptCalls + RequestCalls, ThinkingCalls, 1, 1, 0, 0);
    } else {
      SumCounts(AcceptCalls, ThinkingCalls, 1, 0, 0, 0);
      SumCounts(AcceptCalls + ThinkingCalls, RequestCalls, 1, 0, 0, 1);
    }
  }

  /** The calls before the dispatch report listening and then thinking, in either order. */
  lemma PrefixReports(eager: bool)
    ensures Reports(Prefix(eager)) == [Listening, Thinking]
  {
    AcceptReports();
    ThinkingReports();
    RequestReports();
    var (b, c) := if eager then (RequestCalls, ThinkingCalls) else (ThinkingCalls, RequestCalls);
    assert Prefix(eager) == AcceptCalls + b + c;
    ReportsAppend(AcceptCalls, b);
    ReportsAppend(AcceptCalls + b, c);
  }

  lemma CycleReports(d: seq<Call>, eager: bool)
    requires Reports(d) == []
    ensures Reports(CycleCalls(d, eager)) == [Listening, Thinking, Ready]
  {
    PrefixReports(eager);
    ReadyReports();
    ExtendReports(Prefix(eager), d, ReadyCalls, [Ready]);
  }

  lemma CycleCallsCounts(d: seq<Call>, eager: bool)
    requires SameCounts(d, 0, 0)
    ensures SameCounts(CycleCalls(d, eager), 1, 1)
  {
    PrefixTally(eager);
    ReadyTally();
    ExtendCounts(Prefix(eager), d, ReadyCalls, 0);
  }

  /**
   * One cycle from an idle, running coordinator, whichever of the end of
   * speech and the worker's wake-up comes first, reports listening,
   * thinking and ready, in that order, and returns to idle with one more
   * registration and one more request.
   */
  lemma NormalCycle(m: Mic, outcome: Outcome, eager: bool)
    requires m.running && !m.event && m.worker == Waiting && !outcome.Escaped?
    ensures var m' := Run(m, Cycle(outcome, eager));
      && m'.running && !m'.event && m'.worker == Waiting
      && Reports(m'.calls) == Reports(m.calls) + [Listening, Thinking, Ready]
      && Registered(m') == Registered(m) + 1
      && Requests(m') == Requests(m) + 1
  {
    var d := Dispatch(outcome, m.alwaysResponds);
    CycleRun(m, outcome, eager);
    DispatchCounts(outcome, m.alwaysResponds);
    DispatchReports(outcome, m.alwaysResponds);
    CycleCallsCounts(d, eager);
    CycleReports(d, eager);
    ReportsExtend(m, CycleCalls(d, eager), [Listening, Thinking, Ready]);
    AppendCounts(m, CycleCalls(d, eager), 1, 1);
  }

  /** The statuses reported at start-up: ready, and nothing else. */
  lemma StartReports(alwaysResponds: bool)
    ensures Reports(Start(alwaysResponds).calls) == [Ready]
  {
    var calls := Start(alwaysResponds).calls;
    assert calls[1..][1..][1..] == [];
  }

  /**
   * From power-up, a first cycle in either order shows the user ready,
   * listening, thinking and ready again.
   */
  lemma StartupCycle(alwaysResponds: bool, outcome: Outcome, eager: bool)
    requires !outcome.Escaped?
    ensures Reports(Run(Start(alwaysResponds), Cycle(outcome, eager)).calls) == [Ready, Listening, Thinking, Ready]
  {
    StartReports(alwaysResponds);
    NormalCycle(Start(alwaysResponds), outcome, eager);
  }

  /**
   * The end of a request: the dispatch, then either a follow-on
   * `recognize`, which the cleared event always lets through, or the
   * trigger restart and the ready report.
   */
  lemma CompleteCalls(m: Mic, outcome: Outcome, followOn: bool)
    requires m.worker == Requesting && !outcome.Escaped?
    ensures var m' := Complete(m, outcome, followOn);
      && m'.calls == m.calls + Dispatch(outcome, m.alwaysResponds) + (if followOn then AcceptCalls else ReadyCalls)
      && Reports(m'.calls) == Reports(m.calls) + (if followOn then [Listening] else [Ready])
      && Registered(m') == Registered(m) + (if followOn then 1 else 0)
      && Requests(m') == Requests(m)
  {
    var d := Dispatch(outcome, m.alwaysResponds);
    CompleteShape(m, outcome, followOn);
    DispatchReports(outcome, m.alwaysResponds);
    DispatchCounts(outcome, m.alwaysResponds);
    if followOn {
      AcceptReports();
      AcceptTally();
      ExtendReports(m.calls, d, AcceptCalls, [Listening]);
      ExtendCounts(m.calls, d, AcceptCalls, 1);
    } else {
      ReadyReports();
      ReadyTally();
      ExtendReports(m.calls, d, ReadyCalls, [Ready]);
      ExtendCounts(m.calls, d, ReadyCalls, 0);
    }
  }

  lemma CompleteShape(m: Mic, outcome: Outcome, followOn: bool)
    requires m.worker == Requesting && !outcome.Escaped?
    ensures Complete(m, outcome, followOn) == m.(
      calls := m.calls + Dispatch(outcome, m.alwaysResponds) + (if followOn then AcceptCalls else ReadyCalls),
      event := followOn,
      worker := if m.running then Waiting else Exited)
  {
  }

  /** A trace extended by a report-free dispatch and then by `tail`. */
  lemma ExtendReports(calls: seq<Call>, d: seq<Call>, tail: seq<Call>, rs: seq<Status>)
    requires Reports(d) == [] && Reports(tail) == rs
    ensures Reports(calls + d + tail) == Reports(calls) + rs
  {
    ReportsAppend(calls, d);
    ReportsAppend(calls + d, tail);
  }

  lemma ExtendCounts(calls: seq<Call>, d: seq<Call>, tail: seq<Call>, a: nat)
    requires SameCounts(d, 0, 0) && SameCounts(tail, a, 0)
    ensures Count(calls + d + tail, AddProcessor) == Count(calls, AddProcessor) + a
    ensures Count(calls + d + tail, DoRequest) == Count(calls, DoRequest)
    ensures Count(calls + d + tail, Report(Listening)) == Count(calls, Report(Listening)) + a
  {
    CountAppend(calls, d, Report(Listening));
    CountAppend(calls + d, tail, Report(Listening));
    CountAppend(calls, d, AddProcessor);
    CountAppend(calls + d, tail, AddProcessor);
    CountAppend(calls, d, DoRequest);
    CountAppend(calls + d, tail, DoRequest);
  }

  /**
   * A `speech.Error` from the request is caught: the error is logged, the
   * apology spoken, and the cycle still clears the event and moves on.
   */
  lemma ErrorRecovered(m: Mic, followOn: bool)
    requires m.worker == Requesting && m.running
    ensures var m' := Complete(m, Raised, followOn);
      && m'.worker == Waiting && m'.running
      && m'.calls[|m.calls|..|m.calls| + 2] == [LogError, SayApology]
      && m'.event == followOn
      && Reports(m'.calls) == Reports(m.calls) + (if followOn then [Listening] else [Ready])
  {
    CompleteCalls(m, Raised, followOn);
    var m' := Complete(m, Raised, followOn);
    var tail := if followOn then AcceptCalls else ReadyCalls;
    assert m'.calls == m.calls + [LogError, SayApology] + tail;
  }

  /** Once `running` is clear no action starts a request, and nothing sets it again. */
  lemma StepAfterShutdown(m: Mic, a: Action)
    requires !m.running
    ensures !Step(m, a).running && Requests(Step(m, a)) == Requests(m)
  {
    match a
    case Trigger =>
      if !m.event {
        AcceptTally();
        AppendCounts(m, AcceptCalls, 1, 0);
      }
    case Endpointer =>
      ThinkingTally();
      AppendCounts(m, ThinkingCalls, 0, 0);
    case WorkerWake =>
    case WorkerComplete(outcome, followOn) =>
      if m.worker == Requesting && !outcome.Escaped? {
        CompleteCalls(m, outcome, followOn);
      }
    case Shutdown =>
      StopInvCounts(m);
  }

  lemma StopInvCounts(m: Mic)
    ensures Requests(Stop(m)) == Requests(m) && Registered(Stop(m)) == Registered(m)
  {
    AppendCounts(m, [EndAudio], 0, 0) by {
      assert [EndAudio][1..] == [];
    }
  }

  /** After `__exit__`, every interleaving makes no further request. */
  lemma {:induction false} NoRequestsAfterShutdown(m: Mic, acts: seq<Action>)
    requires !m.running
    ensures !Run(m, acts).running && Requests(Run(m, acts)) == Requests(m)
    decreases |acts|
  {
    if acts != [] {
      StepAfterShutdown(m, acts[0]);
      NoRequestsAfterShutdown(Step(m, acts[0]), acts[1..]);
    }
  }

  /** Ready reports in a trace. */
  function Readies(m: Mic): nat { Count(m.calls, Report(Ready)) }

  /**
   * A dead worker stays dead and holds the event: no action clears it,
   * registers the recognizer, starts a request or reports ready.
   */
  lemma DeadStep(m: Mic, a: Action)
    requires m.worker == Dead && m.event
    ensures var m' := Step(m, a);
      && m'.worker == Dead && m'.event
      && Registered(m') == Registered(m) && Requests(m') == Requests(m)
      && Readies(m') == Readies(m)
  {
    match a
    case Endpointer => AppendUntracked(m, ThinkingCalls);
    case Shutdown => AppendUntracked(m, [EndAudio]);
    case Trigger =>
    case WorkerWake =>
    case WorkerComplete(_, _) =>
  }

  /** Calls without a registration, a request or a ready report leave all three counts alone. */
  lemma AppendUntracked(m: Mic, extra: seq<Call>)
    requires AddProcessor !in extra && DoRequest !in extra && Report(Ready) !in extra
    ensures Registered(m.(calls := m.calls + extra)) == Registered(m)
    ensures Requests(m.(calls := m.calls + extra)) == Requests(m)
    ensures Readies(m.(calls := m.calls + extra)) == Readies(m)
  {
    CountAppend(m.calls, extra, AddProcessor);
    CountAppend(m.calls, extra, DoRequest);
    CountAppend(m.calls, extra, Report(Ready));
  }

  lemma {:induction false} DeadRun(m: Mic, acts: seq<Action>)
    requires m.worker == Dead && m.event
    ensures var m' := Run(m, acts);
      && m'.worker == Dead && m'.event
      && Registered(m') == Registered(m) && Requests(m') == Requests(m)
      && Readies(m') == Readies(m)
    decreases |acts|
  {
    if acts != [] {
      DeadStep(m, acts[0]);
      DeadRun(Step(m, acts[0]), acts[1..]);
    }
  }

  /**
   * An exception other than `speech.Error` ends the worker with the event
   * still set and without reporting ready.  From then on, in every
   * interleaving, each trigger is ignored and nothing registers the
   * recognizer, starts a request or reports ready again.
   */
  lemma EscapedExceptionStopsCoordinator(m: Mic, followOn: bool, acts: seq<Action>)
    requires Inv(m) && m.worker == Requesting
    ensures var m' := Run(m, [WorkerComplete(Escaped, followOn)] + acts);
      && m'.worker == Dead && m'.event
      && Registered(m') == Registered(m) && Requests(m') == Requests(m)
      && Readies(m') == Readies(m)
      && Recognize(m') == m'
  {
    var all := [WorkerComplete(Escaped, followOn)] + acts;
    assert all[0] == WorkerComplete(Escaped, followOn) && all[1..] == acts;
    DeadRun(Complete(m, Escaped, followOn), acts);
  }

  /**
   * `__exit__` wakes a waiting worker, which then leaves its loop without
   * calling `do_request`.
   */
  lemma ShutdownWakesWorker(m: Mic)
    requires Inv(m) && m.worker == Waiting
    ensures var m' := Run(m, [Shutdown, WorkerWake]);
      && m'.worker == Exited && !m'.running
      && Requests(m') == Requests(m)
      && m'.calls == m.calls + [EndAudio]
  {
    StopInvCounts(m);
    assert [Shutdown, WorkerWake][1..] == [WorkerWake];
  }

  /** An accepted trigger appends its calls and sets the event. */
  lemma RecognizeAccepts(m: Mic)
    requires !m.event
    ensures Recognize(m) == m.(event := true, calls := m.calls + AcceptCalls)
  {
  }

  /** Trigger and wake, with no end of speech, take an idle coordinator to a request in flight. */
  lemma TriggerThenWake(m: Mic, rest: seq<Action>)
    requires m.running && !m.event && m.worker == Waiting
    ensures Run(m, [Trigger, WorkerWake] + rest)
      == Run(m.(event := true, worker := Requesting, calls := m.calls + AcceptCalls + RequestCalls), rest)
  {
    var acts := [Trigger, WorkerWake] + rest;
    var m1 := Recognize(m);
    RecognizeAccepts(m);
    assert acts[0] == Trigger && acts[1..][0] == WorkerWake && acts[1..][1..] == rest;
    assert Run(m, acts) == Run(m1, acts[1..]);
    assert Run(m1, acts[1..]) == Run(Wake(m1), rest);
  }

  /**
   * Registration is not exclusive: a request that fails before the end of
   * speech, followed by a dialog follow-on, registers the recognizer a
   * second time while the first registration was never removed.
   */
  lemma ProcessorAddedTwice(m: Mic)
    requires m.running && !m.event && m.worker == Waiting
    ensures var m' := Run(m, [Trigger, WorkerWake, WorkerComplete(Raised, true)]);
      && Registered(m') == Registered(m) + 2
      && m'.calls == m.calls + FailedFollowOnCalls()
      && RemoveProcessor !in FailedFollowOnCalls()
  {
    var m2 := m.(event := true, worker := Requesting, calls := m.calls + AcceptCalls + RequestCalls);
    FailedFollowOnRun(m);
    RegisteredOnce(m);
    FollowOnAfterError(m2);
    FailedFollowOnShape(m.calls);
  }

  lemma FailedFollowOnRun(m: Mic)
    requires m.running && !m.event && m.worker == Waiting
    ensures Run(m, [Trigger, WorkerWake, WorkerComplete(Raised, true)])
      == Complete(m.(event := true, worker := Requesting, calls := m.calls + AcceptCalls + RequestCalls), Raised, true)
  {
    var done := [WorkerComplete(Raised, true)];
    TriggerThenWake(m, done);
    assert done[0] == WorkerComplete(Raised, true) && done[1..] == [];
    assert [Trigger, WorkerWake, WorkerComplete(Raised, true)] == [Trigger, WorkerWake] + done;
  }

  lemma RegisteredOnce(m: Mic)
    ensures Registered(m.(event := true, worker := Requesting, calls := m.calls + AcceptCalls + RequestCalls))
      == Registered(m) + 1
  {
    AcceptTally();
    RequestTally();
    AppendCounts(m, AcceptCalls, 1, 0);
    AppendCounts(m.(calls := m.calls + AcceptCalls), RequestCalls, 0, 1);
  }

  /** A raised request with follow-on apologises and registers again. */
  lemma FollowOnAfterError(m: Mic)
    requires m.worker == Requesting
    ensures Complete(m, Raised, true).calls == m.calls + [LogError, SayApology] + AcceptCalls
    ensures Registered(Complete(m, Raised, true)) == Registered(m) + 1
  {
    CompleteCalls(m, Raised, true);
  }

  /** The calls of a trigger, a failed request and a follow-on, with no end of speech. */
  function FailedFollowOnCalls(): seq<Call>
  {
    AcceptCalls + RequestCalls + [LogError, SayApology] + AcceptCalls
  }

  lemma FailedFollowOnShape(calls: seq<Call>)
    ensures calls + AcceptCalls + RequestCalls + [LogError, SayApology] + AcceptCalls == calls + FailedFollowOnCalls()
    ensures RemoveProcessor !in FailedFollowOnCalls()
  {
    assert RemoveProcessor !in AcceptCalls;
    assert RemoveProcessor !in RequestCalls;
    assert RemoveProcessor !in [LogError, SayApology];
  }
}
