/** The mailbox of a thread and the pipe that wakes it (Threads/ThreadBase.cpp, Threads/QueueMessages.cpp,
    Threads/PollerThread.cpp) as a step system of any number of posters and one consumer, in polling mode. */
module Mailbox {
  import opened Bytes

  datatype Signal = Terminate | WakeUp | ChildThreadTerminated

  /** A message is known by its place in the order of enqueueing. */
  type Message = nat

  /** Where the run of the consumer is: in its loop, ending its children, in the last processMessages, or done. */
  datatype Phase = Looping | Finishing | LastRound | Finished

  /** `inHand` are the batches taken off the queue and not yet worked through, the innermost first: a handler that
      calls processMessages again puts a batch before the one it works on. `draining` says that processMessages was
      called and is about to take the queue. `waking` are the posters between enqueue and signal.
      History: how many messages were enqueued in all, those processed in order, how many had been enqueued when the
      first terminate signal was posted, and whether a batch was ever taken before an unfinished one. */
  datatype State = State(
    queue: seq<Message>, pipe: seq<Signal>, waking: set<nat>,
    phase: Phase, terminated: bool, draining: bool, inHand: seq<seq<Message>>,
    enqueued: nat, processed: seq<Message>, beforeTerminate: Option<nat>, overtaken: bool)

  datatype Step =
    // posters
    | Enqueue(poster: nat, count: nat)
    | SignalWakeUp(poster: nat)
    | PostTerminate
    | PostChildTerminated
    // consumer
    | ReadSignal
    | CallProcessMessages
    | DequeueAll
    | ProcessOne
    | EndBatch
    | LeaveLoop
    | StartLastRound
    | Finish

  function Start(): State {
    State([], [], {}, Looping, false, false, [], 0, [], None, false)
  }

  /** Neither a batch in hand nor processMessages called. */
  predicate Idle(s: State) {
    s.inHand == [] && !s.draining
  }

  predicate Enabled(s: State, step: Step) {
    match step
    case Enqueue(poster, _) => poster !in s.waking
    case SignalWakeUp(poster) => poster in s.waking
    case PostTerminate => true
    case PostChildTerminated => true
    case ReadSignal => s.phase.Looping? && Idle(s) && !s.terminated && s.pipe != []
    case CallProcessMessages => !s.draining && (s.phase.LastRound? ==> s.inHand != []) && !s.phase.Finished?
    case DequeueAll => s.draining
    case ProcessOne => !s.draining && s.inHand != [] && s.inHand[0] != []
    case EndBatch => !s.draining && s.inHand != [] && s.inHand[0] == []
    case LeaveLoop => s.phase.Looping? && Idle(s) && s.terminated
    case StartLastRound => s.phase.Finishing? && Idle(s)
    case Finish => s.phase.LastRound? && Idle(s)
  }

  /** The messages first, first + 1, ... */
  function From(first: nat, count: nat): (s: seq<Message>)
    ensures |s| == count && forall i :: 0 <= i < count ==> s[i] == first + i
  {
    seq(count, i => first + i)
  }

  /** Signals go into the pipe as long as the thread has not finished. */
  function Sent(s: State, signal: Signal): State {
    if s.phase.Finished? then s else s.(pipe := s.pipe + [signal])
  }

  function Do(s: State, step: Step): State
    requires Enabled(s, step)
  {
    match step
    case Enqueue(poster, count) =>
      s.(queue := s.queue + From(s.enqueued, count), enqueued := s.enqueued + count, waking := s.waking + {poster})
    case SignalWakeUp(poster) => Sent(s, WakeUp).(waking := s.waking - {poster})
    case PostTerminate =>
      Sent(s, Terminate).(beforeTerminate := if s.beforeTerminate.Some? then s.beforeTerminate else Some(s.enqueued))
    case PostChildTerminated => Sent(s, ChildThreadTerminated)
    case ReadSignal =>
      var rest := s.(pipe := s.pipe[1..]);
      match s.pipe[0] {
        case Terminate => rest.(terminated := true)
        case WakeUp => rest.(draining := true)
        case ChildThreadTerminated => rest
      }
    case CallProcessMessages => s.(draining := true)
    case DequeueAll =>
      s.(queue := [], inHand := [s.queue] + s.inHand, draining := false,
         overtaken := s.overtaken || (s.queue != [] && Flatten(s.inHand) != []))
    case ProcessOne => s.(processed := s.processed + [s.inHand[0][0]], inHand := [s.inHand[0][1..]] + s.inHand[1..])
    case EndBatch => s.(inHand := s.inHand[1..])
    case LeaveLoop => s.(phase := Finishing)
    case StartLastRound => s.(phase := LastRound, draining := true)
    case Finish => s.(phase := Finished)
  }

  /** A step that is not possible changes nothing. */
  function Run(steps: seq<Step>): State {
    if steps == [] then Start()
    else
      var s := Run(steps[..|steps| - 1]);
      var step := steps[|steps| - 1];
      if Enabled(s, step) then Do(s, step) else s
  }

  // ---------- what every run keeps ----------

  /** No lost wake-up. */
  ghost predicate WillWake(s: State) {
    s.queue != [] && !s.phase.Finished? ==> WakeUp in s.pipe || s.waking != {} || s.draining
  }

  /** How many messages were taken off the queue so far. */
  function TakenCount(s: State): nat {
    if |s.queue| <= s.enqueued then s.enqueued - |s.queue| else 0
  }

  /** Everything not queued any more was processed or is in hand, each message once. */
  ghost predicate Conserved(s: State) {
    && |s.queue| <= s.enqueued && s.queue == From(TakenCount(s), |s.queue|)
    && multiset(s.processed) + multiset(Flatten(s.inHand)) == multiset(From(0, TakenCount(s)))
  }

  /** The order of processing, past and to come, is the order of enqueueing. */
  ghost predicate InOrder(s: State) {
    s.processed + Flatten(s.inHand) == From(0, TakenCount(s))
  }

  /** Terminating takes the queue once more after the terminate signal was posted. */
  ghost predicate EndsInOrder(s: State) {
    && (Terminate in s.pipe || s.terminated || !s.phase.Looping? ==> s.beforeTerminate.Some?)
    && (s.beforeTerminate.Some? ==> s.beforeTerminate.value <= s.enqueued)
    && (s.phase.Finished? ==> Idle(s))
    && ((s.phase.LastRound? && !s.draining) || s.phase.Finished? ==> s.beforeTerminate.value <= TakenCount(s))
  }

  ghost predicate Messages(s: State) {
    Conserved(s) && (InOrder(s) <==> !s.overtaken)
  }

  ghost predicate Signals(s: State) {
    WillWake(s) && EndsInOrder(s)
  }

  ghost predicate Inv(s: State) {
    Messages(s) && Signals(s)
  }

  lemma FlattenFirst(batch: seq<Message>, rest: seq<seq<Message>>)
    ensures Flatten([batch] + rest) == batch + Flatten(rest)
  {
    assert ([batch] + rest)[1..] == rest;
  }

  lemma FromSplit(first: nat, n: nat, m: nat)
    ensures From(first, n + m) == From(first, n) + From(first + n, m)
    ensures From(first, 0) == []
  {
  }

  /** Taking the queue: the messages stay what they are, and they stay in order iff they were and nothing is
      overtaken. */
  lemma DequeueKeepsMessages(s: State)
    requires Messages(s) && s.draining
    ensures Messages(Do(s, DequeueAll))
  {
    hide From, Flatten;
    var (after, rest, taken) := (Do(s, DequeueAll), Flatten(s.inHand), TakenCount(s));
    FromSplit(0, taken, |s.queue|);
    FromSplit(s.enqueued, 0, 0);
    FlattenFirst(s.queue, s.inHand);
    OrderAfterDequeue(s.processed, s.queue, rest, taken);
    assert TakenCount(after) == taken + |s.queue| && From(0, TakenCount(after)) == From(0, taken) + s.queue;
    assert s.processed + s.queue + rest == s.processed + (s.queue + rest);
    assert InOrder(after) <==> InOrder(s) && (s.queue == [] || rest == []);
  }

  lemma OrderAfterDequeue(done: seq<Message>, queue: seq<Message>, rest: seq<Message>, taken: nat)
    requires queue == From(taken, |queue|)
    requires multiset(done) + multiset(rest) == multiset(From(0, taken))
    ensures multiset(done) + multiset(queue + rest) == multiset(From(0, taken) + queue)
    ensures done + queue + rest == From(0, taken) + queue
      <==> done + rest == From(0, taken) && (queue == [] || rest == [])
  {
    var all := From(0, taken);
    if queue == [] {
      assert done + queue + rest == done + rest && all + queue == all;
    } else if rest == [] {
      assert done + queue + rest == done + queue && done + rest == done;
      assert done + queue == all + queue ==> done == (done + queue)[..|done|] && all == (all + queue)[..|all|];
      assert |multiset(done)| == |multiset(all)|;
    } else {
      // the last message of the left side is an old one, that of the right side a new one
      var last := rest[|rest| - 1];
      assert last in multiset(rest);
      assert last in multiset(all);
      assert (done + queue + rest)[|done + queue + rest| - 1] == last;
      assert (all + queue)[|all + queue| - 1] == queue[|queue| - 1];
    }
  }

  /** Working on a batch moves its first message to the processed ones, which stand before it anyway. */
  lemma ProcessKeepsMessages(s: State)
    requires Messages(s) && Enabled(s, ProcessOne)
    ensures Messages(Do(s, ProcessOne))
  {
    var after := Do(s, ProcessOne);
    var (batch, rest) := (s.inHand[0], s.inHand[1..]);
    assert s.inHand == [batch] + rest;
    FlattenFirst(batch, rest);
    FlattenFirst(batch[1..], rest);
    SameInAll(s.processed, batch, Flatten(rest));
  }

  lemma SameInAll(done: seq<Message>, batch: seq<Message>, rest: seq<Message>)
    requires batch != []
    ensures done + [batch[0]] + (batch[1..] + rest) == done + (batch + rest)
    ensures multiset(done + [batch[0]]) + multiset(batch[1..] + rest) == multiset(done) + multiset(batch + rest)
  {
    assert done + [batch[0]] + (batch[1..] + rest) == done + (batch + rest);
    assert multiset(done + [batch[0]] + (batch[1..] + rest)) == multiset(done + (batch + rest));
  }

  lemma EndBatchKeepsMessages(s: State)
    requires Messages(s) && Enabled(s, EndBatch)
    ensures Messages(Do(s, EndBatch))
  {
    assert s.inHand == [s.inHand[0]] + s.inHand[1..];
    FlattenFirst(s.inHand[0], s.inHand[1..]);
    assert [] + Flatten(s.inHand[1..]) == Flatten(s.inHand[1..]);
  }

  lemma EnqueueKeepsMessages(s: State, poster: nat, count: nat)
    requires Messages(s) && poster !in s.waking
    ensures Messages(Do(s, Enqueue(poster, count)))
  {
    hide From, Flatten;
    FromSplit(TakenCount(s), |s.queue|, count);
  }

  lemma StepKeepsMessages(s: State, step: Step)
    requires Messages(s) && Enabled(s, step)
    ensures Messages(Do(s, step))
  {
    hide Messages;
    match step
    case Enqueue(poster, count) => EnqueueKeepsMessages(s, poster, count);
    case DequeueAll => DequeueKeepsMessages(s);
    case ProcessOne => ProcessKeepsMessages(s);
    case EndBatch => EndBatchKeepsMessages(s);
    case _ => SameMessages(s, Do(s, step));
  }

  lemma SameMessages(s: State, t: State)
    requires s.queue == t.queue && s.enqueued == t.enqueued && s.processed == t.processed
    requires s.inHand == t.inHand && s.overtaken == t.overtaken
    ensures Messages(s) == Messages(t)
  {
  }

  lemma StepKeepsSignals(s: State, step: Step)
    requires Inv(s) && Enabled(s, step)
    ensures Signals(Do(s, step))
  {
    hide From, Flatten, InOrder;
    if step.ReadSignal? {
      assert s.pipe == [s.pipe[0]] + s.pipe[1..];
    }
  }

  lemma {:induction false} InvOnEveryRun(steps: seq<Step>)
    ensures Inv(Run(steps))
  {
    if steps == [] {
      assert From(0, 0) == [];
    } else {
      InvOnEveryRun(steps[..|steps| - 1]);
      var s := Run(steps[..|steps| - 1]);
      if Enabled(s, steps[|steps| - 1]) {
        StepKeepsMessages(s, steps[|steps| - 1]);
        StepKeepsSignals(s, steps[|steps| - 1]);
      }
    }
  }
}
