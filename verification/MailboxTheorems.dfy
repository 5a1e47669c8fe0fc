/** What the mailbox guarantees in every run. */
module MailboxTheorems {
  import opened Bytes
  import opened Mailbox

  /** No lost wake-up: as long as the thread has not finished, a message in the queue means a wake-up in the pipe, a
      poster about to send one, or a consumer about to take the queue. */
  lemma {:induction false} NoLostWakeUp(steps: seq<Step>)
    ensures var s := Run(steps);
      s.queue != [] && !s.phase.Finished? ==> WakeUp in s.pipe || s.waking != {} || s.draining
  {
    InvOnEveryRun(steps);
  }

  /** A consumer that waits on an empty pipe while nobody is posting has processed every message. */
  lemma {:induction false} BlockedConsumerMissedNothing(steps: seq<Step>)
    requires var s := Run(steps); s.phase.Looping? && Idle(s) && s.pipe == [] && s.waking == {}
    ensures var s := Run(steps); s.queue == [] && multiset(s.processed) == multiset(From(0, s.enqueued))
  {
    hide From;
    InvOnEveryRun(steps);
  }

  /** When the thread has finished, every message enqueued before its terminate signal was posted has been
      processed, and no message was processed twice. */
  lemma {:induction false} FinishedHasProcessedAllBeforeTerminate(steps: seq<Step>)
    requires Run(steps).phase.Finished?
    ensures var s := Run(steps);
      && s.beforeTerminate.Some?
      && (forall m :: 0 <= m < s.beforeTerminate.value ==> multiset(s.processed)[m] == 1)
      && (forall m :: multiset(s.processed)[m] <= 1)
  {
    InvOnEveryRun(steps);
    var s := Run(steps);
    forall m: nat ensures multiset(s.processed)[m] == if m < TakenCount(s) then 1 else 0 {
      OnceEach(0, TakenCount(s), m);
    }
  }

  lemma {:induction false} OnceEach(first: nat, count: nat, m: nat)
    ensures multiset(From(first, count))[m] == if first <= m < first + count then 1 else 0
    decreases count
  {
    if count > 0 {
      OnceEach(first, count - 1, m);
      assert From(first, count) == From(first, count - 1) + [first + count - 1];
    }
  }

  /** Conservation: at any time the messages processed, in hand and queued are those enqueued, each once. */
  lemma {:induction false} MessagesConserved(steps: seq<Step>)
    ensures var s := Run(steps);
      multiset(s.processed) + multiset(Flatten(s.inHand)) + multiset(s.queue) == multiset(From(0, s.enqueued))
  {
    hide From, Flatten;
    InvOnEveryRun(steps);
    var s := Run(steps);
    FromSplit(0, TakenCount(s), |s.queue|);
    assert multiset(From(0, TakenCount(s)) + s.queue) == multiset(From(0, TakenCount(s))) + multiset(s.queue);
  }

  /** Order: processed, then in hand, then queued are the messages in the order of enqueueing iff processMessages never
      took a non-empty queue while messages of an earlier batch were still in hand. */
  lemma {:induction false} OrderKeptIffNothingOvertaken(steps: seq<Step>)
    ensures var s := Run(steps);
      s.processed + Flatten(s.inHand) + s.queue == From(0, s.enqueued) <==> !s.overtaken
  {
    hide From, Flatten, Run;
    InvOnEveryRun(steps);
    var s := Run(steps);
    FromSplit(0, TakenCount(s), |s.queue|);
    SameBefore(s.processed, Flatten(s.inHand), From(0, TakenCount(s)), s.queue);
  }

  lemma SameBefore(done: seq<Message>, rest: seq<Message>, all: seq<Message>, queue: seq<Message>)
    requires multiset(done) + multiset(rest) == multiset(all)
    ensures done + rest + queue == all + queue <==> done + rest == all
  {
    assert |multiset(done)| + |multiset(rest)| == |multiset(all)|;
    assert (done + rest + queue)[..|all|] == done + rest && (all + queue)[..|all|] == all;
  }

  /** Handlers that do not call processMessages again. */
  predicate NeverReenters(steps: seq<Step>) {
    steps != [] ==>
      var before := steps[..|steps| - 1];
      NeverReenters(before) && (steps[|steps| - 1].CallProcessMessages? ==> Run(before).inHand == [])
  }

  lemma {:induction false} WithoutReentryNothingOvertakes(steps: seq<Step>)
    requires NeverReenters(steps)
    ensures var s := Run(steps); !s.overtaken && (s.draining ==> s.inHand == [])
  {
    if steps != [] {
      WithoutReentryNothingOvertakes(steps[..|steps| - 1]);
    }
  }

  /** Without re-entry messages are processed in the order of enqueueing, at most one batch being in hand. */
  lemma {:induction false} InOrderWithoutReentry(steps: seq<Step>)
    requires NeverReenters(steps)
    ensures var s := Run(steps); s.processed + Flatten(s.inHand) + s.queue == From(0, s.enqueued)
  {
    WithoutReentryNothingOvertakes(steps);
    OrderKeptIffNothingOvertaken(steps);
  }

  function Busy(): State {
    Start().(enqueued := 2, inHand := [[0, 1]])
  }

  lemma BusyReached() returns (steps: seq<Step>)
    ensures Run(steps) == Busy()
  {
    assert From(0, 2) == [0, 1];
    var posted := Start().(queue := [0, 1], enqueued := 2, waking := {1});
    var awake := posted.(pipe := [WakeUp], waking := {});
    Twice([], Enqueue(1, 2), SignalWakeUp(1), posted, awake);
    Twice([] + [Enqueue(1, 2), SignalWakeUp(1)], ReadSignal, DequeueAll, awake.(pipe := [], draining := true), Busy());
    steps := [] + [Enqueue(1, 2), SignalWakeUp(1)] + [ReadSignal, DequeueAll];
  }

  /** The order really is lost by re-entry: a handler that processes messages while the second message of its own
      batch is still in hand lets the third message overtake the second. */
  lemma {:induction false} ReentryOvertakes()
    ensures exists steps :: Run(steps).processed == [0, 2, 1]
  {
    var s1 := BusyReached();
    assert From(2, 1) == [2] && [0, 1][1..] == [1] && [2][1..] == [] && Flatten([[1]]) == [1] + Flatten([]);
    var inHandler := Busy().(inHand := [[1]], processed := [0], queue := [2], enqueued := 3, waking := {1});
    var nested := inHandler.(queue := [], inHand := [[2], [1]], overtaken := true);
    Twice(s1, ProcessOne, Enqueue(1, 1), Busy().(inHand := [[1]], processed := [0]), inHandler);
    var s2 := s1 + [ProcessOne, Enqueue(1, 1)];
    Twice(s2, CallProcessMessages, DequeueAll, inHandler.(draining := true), nested);
    NestedGoesFirst(s2 + [CallProcessMessages, DequeueAll]);
  }

  lemma NestedGoesFirst(steps: seq<Step>)
    requires var s := Run(steps); s.inHand == [[2], [1]] && s.processed == [0] && !s.draining
    ensures exists steps :: Run(steps).processed == [0, 2, 1]
  {
    RunOn(steps, ProcessOne);
    RunOn(steps + [ProcessOne], EndBatch);
    RunOn(steps + [ProcessOne] + [EndBatch], ProcessOne);
    assert Run(steps + [ProcessOne] + [EndBatch] + [ProcessOne]).processed == [0, 2, 1];
  }

  lemma Twice(steps: seq<Step>, first: Step, second: Step, between: State, after: State)
    requires Enabled(Run(steps), first) && Do(Run(steps), first) == between
    requires Enabled(between, second) && Do(between, second) == after
    ensures Run(steps + [first, second]) == after
  {
    RunOn(steps, first);
    RunOn(steps + [first], second);
    assert steps + [first, second] == steps + [first] + [second];
  }

  lemma RunOn(steps: seq<Step>, step: Step)
    ensures var s := Run(steps); Run(steps + [step]) == if Enabled(s, step) then Do(s, step) else s
  {
    assert (steps + [step])[..|steps|] == steps;
  }

  // ---------- the consumer on its own ----------

  /** What the consumer does next when its handlers do not re-enter; nothing when it waits or is done. */
  function Next(s: State): Option<Step> {
    if s.draining then Some(DequeueAll)
    else if s.inHand != [] then Some(if s.inHand[0] != [] then ProcessOne else EndBatch)
    else match s.phase
      case Looping => if s.terminated then Some(LeaveLoop) else if s.pipe != [] then Some(ReadSignal) else None
      case Finishing => Some(StartLastRound)
      case LastRound => Some(Finish)
      case Finished => None
  }

  function PhaseWork(phase: Phase): nat {
    match phase
    case Looping => 10
    case Finishing => 9
    case LastRound => 5
    case Finished => 0
  }

  /** An upper bound on the steps the consumer can do on its own. */
  function Work(s: State): nat {
    4 * |s.pipe| + (if s.draining then 3 else 0) + 2 * |s.queue| + 2 * |Flatten(s.inHand)| + |s.inHand|
    + PhaseWork(s.phase)
  }

  lemma NextDecreases(s: State)
    requires Next(s).Some?
    ensures Enabled(s, Next(s).value) && Work(Do(s, Next(s).value)) < Work(s)
  {
    if s.draining {
      FlattenFirst(s.queue, s.inHand);
    } else if s.inHand != [] {
      assert s.inHand == [s.inHand[0]] + s.inHand[1..];
      FlattenFirst(s.inHand[0], s.inHand[1..]);
      if s.inHand[0] != [] {
        FlattenFirst(s.inHand[0][1..], s.inHand[1..]);
      }
    }
  }

  /** The consumer runs until it waits on an empty pipe or has finished. */
  function Alone(s: State): (end: State)
    ensures Next(end).None?
    decreases Work(s)
  {
    match Next(s)
    case None => s
    case Some(step) => NextDecreases(s); Alone(Do(s, step))
  }

  /** The queue will not be taken any more. */
  predicate TooLate(s: State) {
    (s.phase.LastRound? && !s.draining) || s.phase.Finished?
  }

  lemma NextKeepsQueueFate(s: State)
    requires Inv(s) && s.waking == {} && Next(s).Some?
    ensures var step := Next(s).value;
      && Enabled(s, step)
      && var after := Do(s, step);
         && Inv(after) && after.waking == {} && after.enqueued == s.enqueued && Work(after) < Work(s)
         && (!TooLate(after) || after.queue == [] <==> !TooLate(s) || s.queue == [])
  {
    hide Messages, Signals, Work, Do, Enabled, Next, TooLate;
    NextDecreases(s);
    StepKeepsMessages(s, Next(s).value);
    StepKeepsSignals(s, Next(s).value);
    NextKeepsFate(s);
  }

  lemma NextKeepsFate(s: State)
    requires Signals(s) && Next(s).Some? && Enabled(s, Next(s).value)
    ensures var after := Do(s, Next(s).value);
      && after.waking == s.waking && after.enqueued == s.enqueued
      && (!TooLate(after) || after.queue == [] <==> !TooLate(s) || s.queue == [])
  {
    hide From, Flatten;
  }

  lemma AtRest(s: State)
    requires Inv(s) && s.waking == {} && Next(s).None?
    ensures s.inHand == [] && (s.queue == [] <==> !TooLate(s) || s.queue == [])
  {
    hide From, Flatten;
  }

  lemma {:induction false} AloneTakesQueue(s: State)
    requires Inv(s) && s.waking == {}
    ensures var end := Alone(s);
      Inv(end) && end.inHand == [] && end.enqueued == s.enqueued && (end.queue == [] <==> !TooLate(s) || s.queue == [])
    decreases Work(s)
  {
    hide Inv, Do, Work, TooLate, Enabled, Next;
    if Next(s).Some? {
      NextKeepsQueueFate(s);
      AloneTakesQueue(Do(s, Next(s).value));
    } else {
      AtRest(s);
    }
  }

  /** Progress. When posters pause, the consumer by itself comes to rest, and by then it has processed every message
      enqueued so far, unless its last processMessages had already taken the queue before them. */
  lemma {:induction false} ConsumerAloneProcessesAll(steps: seq<Step>)
    requires Run(steps).waking == {}
    ensures var (s, end) := (Run(steps), Alone(Run(steps)));
      multiset(end.processed) == multiset(From(0, s.enqueued)) <==> !TooLate(s) || s.queue == []
  {
    hide From, Alone, Run, TooLate;
    InvOnEveryRun(steps);
    AloneTakesQueue(Run(steps));
    ProcessedAllIffTaken(Alone(Run(steps)));
  }

  lemma ProcessedAllIffTaken(s: State)
    requires Conserved(s) && s.inHand == []
    ensures multiset(s.processed) == multiset(From(0, s.enqueued)) <==> s.queue == []
  {
    if s.queue != [] {
      assert |multiset(From(0, TakenCount(s)))| < |multiset(From(0, s.enqueued))|;
    }
  }

  // ---------- termination ----------

  /** A terminate signal is on its way to the consumer, or it has arrived. */
  predicate Doomed(s: State) {
    s.terminated || Terminate in s.pipe || !s.phase.Looping?
  }

  lemma NextKeepsDoom(s: State)
    requires Next(s).Some? && Enabled(s, Next(s).value)
    ensures Doomed(Do(s, Next(s).value)) <==> Doomed(s)
  {
    if Next(s).value.ReadSignal? {
      assert s.pipe == [s.pipe[0]] + s.pipe[1..];
    }
  }

  lemma {:induction false} AloneFinishesIffDoomed(s: State)
    ensures Alone(s).phase.Finished? <==> Doomed(s)
    decreases Work(s)
  {
    hide Work, Do, Enabled, Doomed;
    if Next(s).Some? {
      NextDecreases(s);
      NextKeepsDoom(s);
      AloneFinishesIffDoomed(Do(s, Next(s).value));
    } else {
      RestIsTheEnd(s);
    }
  }

  lemma RestIsTheEnd(s: State)
    requires Next(s).None?
    ensures s.phase.Finished? <==> Doomed(s)
  {
  }

  /** A signal read leaves the pipe and does one thing: a terminate signal ends the loop, a wake-up has the queue taken,
      and the end of a child thread does neither. */
  lemma {:induction false} SignalsDoOneThing(s: State)
    requires Enabled(s, ReadSignal)
    ensures var after := Do(s, ReadSignal);
      && s.pipe == [s.pipe[0]] + after.pipe && after.queue == s.queue && after.processed == s.processed
      && (after.terminated <==> s.pipe[0] == Terminate) && (after.draining <==> s.pipe[0] == WakeUp)
      && (Next(after) == Some(LeaveLoop) <==> s.pipe[0] == Terminate)
      && (Next(after) == Some(DequeueAll) <==> s.pipe[0] == WakeUp)
  {
  }

  /** A thread ends when it is told to, and only then: after any run the consumer by itself comes to its end iff a
      terminate signal is in the pipe or was read; it waits for ever otherwise. */
  lemma {:induction false} EndsIffTerminated(steps: seq<Step>)
    ensures var s := Run(steps);
      Alone(s).phase.Finished? <==> s.terminated || Terminate in s.pipe || !s.phase.Looping?
  {
    AloneFinishesIffDoomed(Run(steps));
  }

  /** Posting terminate after any run is enough: whatever else is in the pipe and in the queue, the consumer by
      itself then finishes, and all messages enqueued so far have been processed unless its last round had
      begun. */
  lemma {:induction false} TerminateIsObeyed(steps: seq<Step>)
    requires Run(steps).waking == {}
    ensures var (s, end) := (Run(steps), Alone(Do(Run(steps), PostTerminate)));
      && end.phase.Finished?
      && (s.phase.Looping? ==> multiset(end.processed) == multiset(From(0, s.enqueued)))
  {
    hide From, Alone, Run;
    var s := Run(steps);
    RunOn(steps, PostTerminate);
    AloneFinishesIffDoomed(Do(s, PostTerminate));
    ConsumerAloneProcessesAll(steps + [PostTerminate]);
  }
}
