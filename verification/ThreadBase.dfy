/** The mailbox as the program keeps it: the message queue and the run loop of a thread (Threads/QueueMessages.cpp,
    Threads/ThreadBase.cpp, Threads/PollerThread.cpp), proved against the steps of Mailbox. */
module ThreadBase {
  import opened Bytes
  import opened Mailbox
  import opened MailboxTheorems

  /** The queue under its mutex. `held` says that the mutex is locked by the thread whose calls are modelled; the
      mutex is not recursive, so a second lock by the same thread waits for ever. Every operation leaves it free,
      but one. */
  class QueueMessages {
    var queue: seq<Message>
    var held: bool

    constructor ()
      ensures queue == [] && !held
    {
      queue, held := [], false;
    }

    method Count() returns (count: nat)
      requires !held
      modifies this`held
      ensures !held && count == |queue|
    {
      held := true;
      count := |queue|;
      held := false;
    }

    method Enqueue(message: Message) returns (count: nat)
      requires !held
      modifies this
      ensures !held && queue == old(queue) + [message] && count == |queue|
    {
      held := true;
      queue := queue + [message];
      count := |queue|;
      held := false;
    }

    method EnqueueList(list: seq<Message>) returns (count: nat)
      requires !held
      modifies this
      ensures !held && queue == old(queue) + list && count == |queue|
    {
      held := true;
      queue := queue + list;
      count := |queue|;
      held := false;
    }

    method Dequeue() returns (message: Option<Message>)
      requires !held
      modifies this
      ensures !held
      ensures old(queue) == [] ==> message == None && queue == []
      ensures old(queue) != [] ==> message.Some? && old(queue) == [message.value] + queue
    {
      held := true;
      message := None;
      if |queue| > 0 {
        message := Some(queue[0]);
        queue := queue[1..];
      }
      held := false;
    }

    /** Takes everything; None when the lock is waited for without end. */
    method DequeueAll() returns (messages: Option<seq<Message>>)
      modifies this
      ensures old(held) ==> messages == None && held && queue == old(queue)
      ensures !old(held) ==> messages == Some(old(queue)) && !held && queue == []
    {
      if held {
        return None;
      }
      held := true;
      messages := Some(queue);
      queue := [];
      held := false;
    }

    /** Locks the mutex and calls dequeueAll, which locks it again: the guard holds for every count, so every call
        waits for ever, takes nothing, and leaves the mutex locked. The other branch is never reached. */
    method DequeueCount(count: int) returns (messages: Option<seq<Message>>)
      requires !held
      modifies this
      ensures messages == None && held && queue == old(queue)
    {
      held := true;
      if 0 <= count || |queue| > count {
        messages := DequeueAll();
      } else {
        assert false;
      }
    }
  }

  class ThreadBase {
    const queue: QueueMessages
    var pipe: seq<Signal>
    var isTerminated: bool
    var messagesLeftToProcess: nat
    // history
    ghost var phase: Phase
    ghost var inHand: seq<seq<Message>>
    ghost var enqueued: nat
    ghost var processed: seq<Message>
    ghost var beforeTerminate: Option<nat>
    ghost var overtaken: bool

    constructor ()
      ensures View() == Start() && fresh(queue) && !queue.held
    {
      queue := new QueueMessages();
      pipe, isTerminated, messagesLeftToProcess := [], false, 0;
      phase, inHand, enqueued, processed, beforeTerminate, overtaken := Looping, [], 0, [], None, false;
    }

    ghost function View(): State
      reads this, queue
    {
      State(queue.queue, pipe, {}, phase, isTerminated, false, inHand, enqueued, processed, beforeTerminate, overtaken)
    }

    /** Posts from the thread's own code, with no other poster between enqueue and signal. */
    method PostMessages(messages: seq<Message>, finished: bool)
      requires !queue.held && finished == phase.Finished? && messages == From(enqueued, |messages|)
      modifies this, queue
      ensures !queue.held && View() == Do(Do(old(View()), Enqueue(0, |messages|)), SignalWakeUp(0))
    {
      var total := queue.EnqueueList(messages);
      enqueued := enqueued + |messages|;
      if !finished {
        pipe := pipe + [WakeUp];
      }
    }

    method PostTerminateEvent(finished: bool)
      requires finished == phase.Finished?
      modifies this
      ensures View() == Do(old(View()), PostTerminate)
    {
      if !finished {
        pipe := pipe + [Terminate];
      }
      beforeTerminate := if beforeTerminate.Some? then beforeTerminate else Some(enqueued);
    }

    /** What a handler does with the message is not modelled: it counts as processed. */
    method ProcessMessage(message: Message, ghost rest: seq<Message>, ghost outer: seq<seq<Message>>)
      modifies this`processed, this`inHand
      ensures processed == old(processed) + [message] && inHand == [rest] + outer
    {
      processed := processed + [message];
      inHand := [rest] + outer;
    }

    /** Takes the whole queue and works through it. */
    method ProcessMessages()
      requires !phase.Finished? && !queue.held
      modifies this, queue
      ensures !queue.held
      ensures View() == Through(Do(old(View()).(draining := true), DequeueAll))
      ensures messagesLeftToProcess == 0 && phase == old(phase) && inHand == old(inHand)
    {
      hide Flatten;
      ghost var (outer, done) := (inHand, processed);
      overtaken := overtaken || (queue.queue != [] && Flatten(inHand) != []);
      var dequeued := queue.DequeueAll();
      var messages := dequeued.value;
      inHand := [messages] + inHand;
      messagesLeftToProcess := |messages|;
      for i := 0 to |messages|
        modifies this`messagesLeftToProcess, this`processed, this`inHand
        invariant inHand == [messages[i..]] + outer && processed == done + messages[..i]
        invariant messagesLeftToProcess == |messages| - i
      {
        messagesLeftToProcess := messagesLeftToProcess - 1;
        ProcessMessage(messages[i], messages[i + 1..], outer);
        assert messages[..i + 1] == messages[..i] + [messages[i]];
      }
      inHand := outer;
      assert ([messages] + outer)[1..] == outer && messages[..|messages|] == messages;
    }

    /** One signal off the pipe. */
    method Process() returns (result: bool)
      requires phase.Looping? && inHand == [] && !isTerminated && !queue.held
      modifies this, queue
      ensures !queue.held
      ensures result == (old(pipe) != [])
      ensures !result ==> View() == old(View())
      ensures result ==> inHand == [] && phase.Looping?
      ensures result ==>
        var s := Do(old(View()), ReadSignal);
        View() == if s.draining then Through(Do(s, DequeueAll)) else s
    {
      if |pipe| == 0 {
        return false;
      }
      var signal := pipe[0];
      pipe := pipe[1..];
      match signal {
        case Terminate => isTerminated := true;
        case WakeUp => ProcessMessages();
        case ChildThreadTerminated =>
      }
      result := true;
    }

    /** The run loop without children. It returns when the thread has finished or would wait on its empty pipe. */
    method Run() returns (finished: bool)
      requires phase.Looping? && inHand == [] && !queue.held
      modifies this, queue
      ensures !queue.held
      ensures View() == Alone(old(View())) && finished == phase.Finished?
      ensures finished <==> old(isTerminated) || Terminate in old(pipe)
    {
      hide Alone, Work, Flatten;
      ghost var end := Alone(View());
      AloneFinishesIffDoomed(View());
      while !isTerminated
        invariant !queue.held && phase.Looping? && inHand == [] && Alone(View()) == end
        decreases Work(View())
      {
        ghost var before := View();
        var received := Process();
        if !received {
          AloneWaits(before);
          return false;
        }
        AloneAfterSignal(before);
      }
      AloneToLastRound(View());
      phase := LastRound;
      ProcessMessages();
      phase := Finished;
      finished := true;
    }
  }

  /** The innermost batch has been worked through. */
  ghost function Through(s: State): State
    requires s.inHand != []
  {
    s.(processed := s.processed + s.inHand[0], inHand := s.inHand[1..])
  }

  /** The consumer's own steps work through the batch. */
  lemma {:induction false} AloneThrough(s: State)
    requires s.inHand != [] && !s.draining
    ensures Alone(s) == Alone(Through(s)) && Work(Through(s)) < Work(s)
    decreases |s.inHand[0]|
  {
    hide Work;
    NextDecreases(s);
    if s.inHand[0] == [] {
      assert s.processed + s.inHand[0] == s.processed;
    } else {
      var next := Do(s, ProcessOne);
      AloneThrough(next);
      assert s.processed + [s.inHand[0][0]] + s.inHand[0][1..] == s.processed + s.inHand[0];
      assert next.inHand[1..] == s.inHand[1..];
    }
  }

  lemma AloneAfterSignal(s: State)
    requires Enabled(s, ReadSignal)
    ensures var next := Do(s, ReadSignal);
      var after := if next.draining then Through(Do(next, DequeueAll)) else next;
      Alone(after) == Alone(s) && Work(after) < Work(s)
  {
    hide Work;
    NextDecreases(s);
    var next := Do(s, ReadSignal);
    if next.draining {
      NextDecreases(next);
      AloneThrough(Do(next, DequeueAll));
    }
  }

  lemma AloneWaits(s: State)
    requires Next(s).None?
    ensures Alone(s) == s
  {
  }

  lemma AloneToLastRound(s: State)
    requires Enabled(s, LeaveLoop)
    ensures var round := s.(phase := LastRound, draining := true);
      Alone(s) == Through(Do(round, DequeueAll)).(phase := Finished)
  {
    hide Work;
    var leaving := Do(s, LeaveLoop);
    var round := Do(leaving, StartLastRound);
    var taken := Do(round, DequeueAll);
    NextDecreases(s);
    NextDecreases(leaving);
    NextDecreases(round);
    assert Alone(s) == Alone(leaving) == Alone(round) == Alone(taken);
    AloneThrough(taken);
    var rest := Through(taken);
    assert rest.inHand == [];
    NextDecreases(rest);
    AloneWaits(Do(rest, Finish));
    assert Alone(rest) == Alone(Do(rest, Finish));
  }
}
