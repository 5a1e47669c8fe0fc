/** Every run of the frame queue: frames are collected, applied, handed out under packet ids, removed by tickets. */
module FrameQueueRuns {
  import opened Bytes
  import opened FrameQueue
  import opened FrameQueueTheorems

  datatype Operation =
    | Collecting(priority: byte, content: Content)
    | Applying
    | Preparing(id: uint32)
    | Acknowledging(id: uint32)
    | Resetting

  /** A queue with its history: the frames collected, how many of them were applied, those that tickets removed,
      and under which id a frame was last handed out since the last reset. */
  datatype History = History(
    queue: Queue, collected: seq<Body>, applied: nat, acknowledged: seq<Body>, handed: map<nat, uint32>)

  function Serials(list: seq<Frame>): set<nat> {
    set f <- list :: f.body.serial
  }

  function Step(h: History, op: Operation): History {
    match op
    case Collecting(priority, content) =>
      var body := Body(|h.collected|, priority, content);
      h.(queue := Collect(h.queue, Frame(body, NO_PACKET)), collected := h.collected + [body])
    case Applying => h.(queue := Apply(h.queue), applied := |h.collected|)
    case Preparing(id) =>
      var (queue, list) := PrepareSendingList(h.queue, id);
      h.(queue := queue, handed := h.handed + map s | s in Serials(list) :: id)
    case Acknowledging(id) =>
      h.(queue := ApplyTicket(h.queue, id),
         acknowledged := h.acknowledged + Bodies(Carrying(h.queue.queued, id, true)))
    case Resetting => h.(queue := Reset(h.queue), handed := map[])
  }

  function Run(limit: uint32, ops: seq<Operation>): History {
    if ops == [] then History(FrameQueue.Initial(limit), [], 0, [], map[])
    else Step(Run(limit, ops[..|ops| - 1]), ops[|ops| - 1])
  }

  // ---------- what every run keeps ----------

  /** The stored maxima are the true ones. */
  ghost predicate MaximaExact(q: Queue) {
    q.queuedMaximum == MaxPriority(q.queued) && q.appendingMaximum == MaxPriority(q.appended)
  }

  /** How two frames of the queue stand: in the order of application, and within one priority those in flight first. */
  predicate Before(x: Frame, y: Frame) {
    x.body.serial < y.body.serial && (x.body.priority == y.body.priority && Waiting(x) ==> Waiting(y))
  }

  ghost predicate WellPlaced(frames: seq<Frame>) {
    forall i, j :: 0 <= i < j < |frames| ==> Before(frames[i], frames[j])
  }

  /** Applied frames are either acknowledged or queued, each once. */
  ghost predicate Conserved(h: History) {
    && h.applied <= |h.collected| && (forall i :: 0 <= i < |h.collected| ==> h.collected[i].serial == i)
    && Bodies(h.queue.appended) == h.collected[h.applied..]
    && multiset(h.collected[..h.applied]) == multiset(h.acknowledged) + multiset(Bodies(h.queue.queued))
    && (forall f <- h.queue.queued :: f.body.serial < h.applied)
  }

  /** A frame carries the id under which it was handed out last, or none. */
  ghost predicate IdsRecorded(h: History) {
    && (forall f <- h.queue.queued :: f.packetId ==
         if f.body.serial in h.handed then ToInt32(h.handed[f.body.serial]) else NO_PACKET)
    && (forall f <- h.queue.appended :: f.packetId == NO_PACKET)
    && (forall s <- h.handed :: s < h.applied)
  }

  ghost predicate Inv(h: History) {
    MaximaExact(h.queue) && WellPlaced(h.queue.queued) && Conserved(h) && IdsRecorded(h)
  }

  // ---------- maxima ----------

  lemma {:induction false} SameBodiesSameMaximum(a: seq<Frame>, b: seq<Frame>)
    requires Bodies(a) == Bodies(b)
    ensures MaxPriority(a) == MaxPriority(b)
  {
    if a != [] {
      assert Bodies(a)[0] == Bodies(b)[0];
      assert Bodies(a[1..]) == Bodies(a)[1..] && Bodies(b[1..]) == Bodies(b)[1..];
      SameBodiesSameMaximum(a[1..], b[1..]);
    }
  }

  // ---------- preparing ----------

  predicate Eligible(f: Frame, m: byte) {
    Waiting(f) && f.body.priority >= m
  }

  /** Where a list ends: at the first eligible frame that does not fit. */
  function Cut(frames: seq<Frame>, m: byte, limit: uint32, size: nat): (n: nat)
    ensures n <= |frames|
  {
    if frames == [] then 0
    else if !Eligible(frames[0], m) then 1 + Cut(frames[1..], m, limit, size)
    else
      var next := size + |frames[0].body.content| + LENGTH_SIZE;
      if next < limit then 1 + Cut(frames[1..], m, limit, next) else 0
  }

  function Mark(f: Frame, id: uint32): Frame {
    f.(packetId := ToInt32(id))
  }

  /** Preparing marks exactly the eligible frames before the cut. */
  lemma {:induction false} SelectMarksBeforeCut(frames: seq<Frame>, m: byte, limit: uint32, id: uint32, size: nat)
    ensures var after := Select(frames, m, limit, id, size).frames;
      var cut := Cut(frames, m, limit, size);
      && |after| == |frames|
      && (forall i :: 0 <= i < |frames| ==>
           after[i] == (if i < cut && Eligible(frames[i], m) then Mark(frames[i], id) else frames[i]))
  {
    if frames != [] {
      var f, rest := frames[0], frames[1..];
      var next := size + |f.body.content| + LENGTH_SIZE;
      if !Eligible(f, m) {
        SelectMarksBeforeCut(rest, m, limit, id, size);
        assert forall i :: 0 < i < |frames| ==> frames[i] == rest[i - 1];
      } else if next < limit {
        SelectMarksBeforeCut(rest, m, limit, id, next);
        assert forall i :: 0 < i < |frames| ==> frames[i] == rest[i - 1];
      }
    }
  }

  /** Frames that are not listed stay as they are, and listed ones are marked. */
  ghost predicate ListedOrSame(frames: seq<Frame>, m: byte, id: uint32, after: seq<Frame>, list: seq<Frame>) {
    && (forall g <- list :: g in after && g.packetId == ToInt32(id) && g.body.priority >= m)
    && (forall f <- after :: f in list || f in frames)
  }

  lemma ListedOrSameCons(frames: seq<Frame>, f: Frame, g: Frame, m: byte, id: uint32,
                         after: seq<Frame>, list: seq<Frame>)
    requires ListedOrSame(frames, m, id, after, list)
    ensures ListedOrSame([f] + frames, m, id, [f] + after, list)
    ensures g == Mark(f, id) && f.body.priority >= m ==> ListedOrSame([f] + frames, m, id, [g] + after, [g] + list)
  {
  }

  ghost predicate ListsMarked(frames: seq<Frame>, m: byte, limit: uint32, id: uint32, size: nat) {
    var prepared := Select(frames, m, limit, id, size);
    ListedOrSame(frames, m, id, prepared.frames, prepared.list)
  }

  lemma ListsOneMore(f: Frame, rest: seq<Frame>, m: byte, limit: uint32, id: uint32, size: nat)
    requires var next := size + |f.body.content| + LENGTH_SIZE;
      if !Eligible(f, m) then ListsMarked(rest, m, limit, id, size)
      else next < limit && ListsMarked(rest, m, limit, id, next)
    ensures ListsMarked([f] + rest, m, limit, id, size)
  {
    hide ListedOrSame, Select, Eligible;
    var size' := if Eligible(f, m) then size + |f.body.content| + LENGTH_SIZE else size;
    var more := Select(rest, m, limit, id, size');
    SelectCons(f, rest, m, limit, id, size);
    EligibleIsHigh(f, m);
    ListedOrSameCons(rest, f, Mark(f, id), m, id, more.frames, more.list);
  }

  lemma EligibleIsHigh(f: Frame, m: byte)
    ensures Eligible(f, m) ==> f.body.priority >= m
  {
  }

  lemma {:induction false} SelectListsMarked(frames: seq<Frame>, m: byte, limit: uint32, id: uint32, size: nat)
    ensures ListsMarked(frames, m, limit, id, size)
  {
    if frames != [] {
      var (f, rest) := (frames[0], frames[1..]);
      assert frames == [f] + rest;
      var next := size + |f.body.content| + LENGTH_SIZE;
      if !Eligible(f, m) {
        SelectListsMarked(rest, m, limit, id, size);
        ListsOneMore(f, rest, m, limit, id, size);
      } else if next < limit {
        SelectListsMarked(rest, m, limit, id, next);
        ListsOneMore(f, rest, m, limit, id, size);
      }
    }
  }

  lemma SelectCons(f: Frame, rest: seq<Frame>, m: byte, limit: uint32, id: uint32, size: nat)
    ensures var next := size + |f.body.content| + LENGTH_SIZE;
      && (!Eligible(f, m) ==>
           var more := Select(rest, m, limit, id, size);
           Select([f] + rest, m, limit, id, size) == Prepared([f] + more.frames, more.list))
      && (Eligible(f, m) && next < limit ==>
           var more := Select(rest, m, limit, id, next);
           Select([f] + rest, m, limit, id, size) == Prepared([Mark(f, id)] + more.frames, [Mark(f, id)] + more.list))
  {
    assert ([f] + rest)[1..] == rest;
  }

  /** Every frame handed out carries the new id and has the highest priority of all queued frames, in flight
      included. */
  lemma {:induction false} HandedOutAreHighest(h: History, id: uint32)
    requires Inv(h)
    ensures var (after, list) := PrepareSendingList(h.queue, id);
      forall f <- list :: f.packetId == ToInt32(id) && forall g <- h.queue.queued :: g.body.priority <= f.body.priority
  {
    SelectListsMarked(h.queue.queued, h.queue.queuedMaximum, h.queue.limit, id, 0);
    MaxPriorityIsMaximum(h.queue.queued);
  }

  lemma PrepareKeepsPlaces(frames: seq<Frame>, m: byte, limit: uint32, id: uint32)
    requires WellPlaced(frames) && m == MaxPriority(frames)
    ensures var after := Select(frames, m, limit, id, 0).frames; WellPlaced(after) && Bodies(after) == Bodies(frames)
  {
    hide Select, Cut, MaxPriority;
    SelectMarksBeforeCut(frames, m, limit, id, 0);
    MaxPriorityIsMaximum(frames);
  }

  lemma {:induction false} SameSerialSameFrame(frames: seq<Frame>, f: Frame, g: Frame)
    requires WellPlaced(frames) && f in frames && g in frames && f.body.serial == g.body.serial
    ensures f == g
  {
    var i :| 0 <= i < |frames| && frames[i] == f;
    var j :| 0 <= j < |frames| && frames[j] == g;
    assert i < j ==> Before(f, g);
    assert j < i ==> Before(g, f);
  }

  /** After preparing, a frame's serial is one of the list's iff the frame is on the list. */
  lemma ListedSerials(h: History, id: uint32)
    requires Inv(h)
    ensures var prepared := Select(h.queue.queued, h.queue.queuedMaximum, h.queue.limit, id, 0);
      && (forall f <- prepared.frames :: f.body.serial in Serials(prepared.list) <==> f in prepared.list)
      && (forall s <- Serials(prepared.list) :: s < h.applied)
  {
    var q := h.queue;
    PrepareKeepsPlaces(q.queued, q.queuedMaximum, q.limit, id);
    SelectListsMarked(q.queued, q.queuedMaximum, q.limit, id, 0);
    var prepared := Select(q.queued, q.queuedMaximum, q.limit, id, 0);
    forall f <- prepared.frames ensures f.body.serial in Serials(prepared.list) <==> f in prepared.list {
      if f.body.serial in Serials(prepared.list) {
        var g :| g in prepared.list && g.body.serial == f.body.serial;
        SameSerialSameFrame(prepared.frames, f, g);
      }
    }
    forall s <- Serials(prepared.list) ensures s < h.applied {
      var g :| g in prepared.list && g.body.serial == s;
      SameBodiesSameMembers(prepared.frames, q.queued, g);
    }
  }

  lemma PrepareKeepsIds(h: History, id: uint32)
    requires Inv(h)
    ensures IdsRecorded(Step(h, Preparing(id)))
  {
    ListedSerials(h, id);
    SelectListsMarked(h.queue.queued, h.queue.queuedMaximum, h.queue.limit, id, 0);
  }

  lemma SameBodiesSameMembers(a: seq<Frame>, b: seq<Frame>, f: Frame)
    requires Bodies(a) == Bodies(b) && f in a
    ensures exists g <- b :: g.body == f.body
  {
    var i :| 0 <= i < |a| && a[i] == f;
    assert Bodies(a)[i] == Bodies(b)[i] == b[i].body;
  }

  lemma PrepareKeepsInv(h: History, id: uint32)
    requires Inv(h)
    ensures Inv(Step(h, Preparing(id)))
  {
    var q := h.queue;
    PrepareKeepsIds(h, id);
    PrepareKeepsPlaces(q.queued, q.queuedMaximum, q.limit, id);
    var after := Select(q.queued, q.queuedMaximum, q.limit, id, 0).frames;
    SameBodiesSameMaximum(after, q.queued);
    forall f <- after ensures f.body.serial < h.applied {
      SameBodiesSameMembers(after, q.queued, f);
    }
  }

  // ---------- tickets ----------

  lemma PlacedCons(f: Frame, rest: seq<Frame>)
    ensures WellPlaced([f] + rest) <==> WellPlaced(rest) && forall g <- rest :: Before(f, g)
  {
    var all := [f] + rest;
    if WellPlaced(all) {
      forall i, j | 0 <= i < j < |rest| ensures Before(rest[i], rest[j]) {
        assert Before(all[i + 1], all[j + 1]);
      }
      forall g <- rest ensures Before(f, g) {
        var j :| 0 <= j < |rest| && rest[j] == g;
        assert Before(all[0], all[j + 1]);
      }
    }
  }

  /** Filtering keeps the order of what stays. */
  lemma {:induction false} CarryingIsFilter(frames: seq<Frame>, id: uint32, carrying: bool)
    requires WellPlaced(frames)
    ensures var kept := Carrying(frames, id, carrying);
      && (forall f :: f in kept <==> f in frames && (ToUInt32(f.packetId) == id) == carrying)
      && WellPlaced(kept)
  {
    if frames != [] {
      var f, rest := frames[0], frames[1..];
      assert frames == [f] + rest;
      PlacedCons(f, rest);
      CarryingIsFilter(rest, id, carrying);
      PlacedCons(f, Carrying(rest, id, carrying));
    }
  }

  lemma BodiesCons(f: Frame, rest: seq<Frame>)
    ensures multiset(Bodies([f] + rest)) == multiset{f.body} + multiset(Bodies(rest))
  {
    assert Bodies([f] + rest) == [f.body] + Bodies(rest);
  }

  lemma {:induction false} TicketSplits(frames: seq<Frame>, id: uint32)
    ensures multiset(Bodies(frames)) ==
      multiset(Bodies(Carrying(frames, id, true))) + multiset(Bodies(Carrying(frames, id, false)))
  {
    hide Bodies;
    if frames != [] {
      var f, rest := frames[0], frames[1..];
      assert frames == [f] + rest;
      TicketSplits(rest, id);
      BodiesCons(f, rest);
      var carrying := ToUInt32(f.packetId) == id;
      BodiesCons(f, Carrying(rest, id, carrying));
      assert [] + Carrying(rest, id, !carrying) == Carrying(rest, id, !carrying);
    }
  }

  predicate HandedUnder(h: History, f: Frame, id: uint32) {
    if f.body.serial in h.handed then h.handed[f.body.serial] == id else id == 0xFFFF_FFFF
  }

  lemma Int32RoundTrip(id: uint32)
    ensures ToUInt32(ToInt32(id)) == id
  {
  }

  lemma CarriesHandedId(h: History, f: Frame, id: uint32)
    requires Inv(h) && f in h.queue.queued
    ensures ToUInt32(f.packetId) == id <==> HandedUnder(h, f, id)
  {
    if f.body.serial in h.handed {
      Int32RoundTrip(h.handed[f.body.serial]);
    }
  }

  /** A ticket removes exactly the frames last handed out under its id since the last reset, and keeps the order of the
      rest. The one exception is the id 0xFFFFFFFF, which removes the frames that were not handed out as well. */
  lemma {:induction false} TicketRemovesWhatWasHandedOut(h: History, id: uint32)
    requires Inv(h)
    ensures var after := ApplyTicket(h.queue, id).queued;
      && (forall f :: f in after <==> f in h.queue.queued && !HandedUnder(h, f, id))
      && WellPlaced(after)
  {
    CarryingIsFilter(h.queue.queued, id, false);
    forall f | f in h.queue.queued ensures ToUInt32(f.packetId) == id <==> HandedUnder(h, f, id) {
      CarriesHandedId(h, f, id);
    }
  }

  lemma TicketKeepsInv(h: History, id: uint32)
    requires Inv(h)
    ensures Inv(Step(h, Acknowledging(id)))
  {
    hide Carrying, WellPlaced, MaxPriority, Bodies;
    CarryingIsFilter(h.queue.queued, id, false);
    TicketSplits(h.queue.queued, id);
    BodiesAppend(h, Carrying(h.queue.queued, id, true));
  }

  lemma BodiesAppend(h: History, list: seq<Frame>)
    ensures multiset(h.acknowledged + Bodies(list)) == multiset(h.acknowledged) + multiset(Bodies(list))
  {
  }

  // ---------- the other operations ----------

  lemma CollectConserves(h: History, priority: byte, content: Content)
    requires Conserved(h)
    ensures Conserved(Step(h, Collecting(priority, content)))
  {
    var after := Step(h, Collecting(priority, content));
    var body := after.collected[|h.collected|];
    assert Bodies(after.queue.appended) == Bodies(h.queue.appended) + [body];
    assert after.collected[..h.applied] == h.collected[..h.applied];
    assert after.collected[h.applied..] == h.collected[h.applied..] + [body];
  }

  lemma CollectKeepsInv(h: History, priority: byte, content: Content)
    requires Inv(h)
    ensures Inv(Step(h, Collecting(priority, content)))
  {
    CollectConserves(h, priority, content);
    var f := Frame(Body(|h.collected|, priority, content), NO_PACKET);
    assert MaxPriority([f]) == Max(1, priority);
    MaxPriorityAppend(h.queue.appended, [f]);
    MaxPriorityIsMaximum(h.queue.appended);
  }

  /** The frames to be applied are those collected last, in order, and wait. */
  lemma AppendedAreLast(h: History)
    requires Inv(h)
    ensures |h.queue.appended| == |h.collected| - h.applied
    ensures forall k :: 0 <= k < |h.queue.appended| ==>
      h.queue.appended[k].body.serial == h.applied + k && h.queue.appended[k].packetId == NO_PACKET
  {
    assert |h.collected[h.applied..]| == |h.collected| - h.applied;
    forall k | 0 <= k < |h.queue.appended|
      ensures h.queue.appended[k].body.serial == h.applied + k && h.queue.appended[k].packetId == NO_PACKET
    {
      assert Bodies(h.queue.appended)[k] == h.collected[h.applied + k];
      assert h.queue.appended[k] in h.queue.appended;
    }
  }

  lemma AppendKeepsPlaces(h: History)
    requires Inv(h)
    ensures WellPlaced(h.queue.queued + h.queue.appended)
  {
    AppendedAreLast(h);
    var a, b := h.queue.queued, h.queue.appended;
    forall i, j | 0 <= i < j < |a + b| ensures Before((a + b)[i], (a + b)[j]) {
      if i < |a| <= j {
        assert a[i] in a;
      }
    }
  }

  lemma MovedToQueue<T>(collected: seq<T>, applied: nat, gone: seq<T>, queued: seq<T>, appended: seq<T>)
    requires applied <= |collected| && appended == collected[applied..]
    requires multiset(collected[..applied]) == multiset(gone) + multiset(queued)
    ensures multiset(collected[..|collected|]) == multiset(gone) + multiset(queued + appended)
    ensures collected[|collected|..] == []
  {
    assert collected[..|collected|] == collected[..applied] + collected[applied..];
  }

  lemma BodiesConcat(a: seq<Frame>, b: seq<Frame>)
    ensures Bodies(a + b) == Bodies(a) + Bodies(b)
  {
  }

  lemma ApplyConserves(h: History)
    requires Inv(h)
    ensures Conserved(Step(h, Applying))
  {
    var q := h.queue;
    AppendedAreLast(h);
    ApplyKeepsIds(h);
    NoFrames();
    MovedToQueue(h.collected, h.applied, h.acknowledged, Bodies(q.queued), Bodies(q.appended));
    BodiesConcat(q.queued, q.appended);
    if q.appended == [] {
      assert q.queued + q.appended == q.queued;
    }
  }

  lemma ApplyKeepsInv(h: History)
    requires Inv(h)
    ensures Inv(Step(h, Applying))
  {
    var q := h.queue;
    ApplyConserves(h);
    AppendedAreLast(h);
    AppendKeepsPlaces(h);
    ApplyKeepsIds(h);
    MaxPriorityAppend(q.queued, q.appended);
    NoFrames();
  }

  lemma NoFrames()
    ensures MaxPriority([]) == 1 && Bodies([]) == []
  {
  }

  lemma ApplyKeepsIds(h: History)
    requires Inv(h)
    ensures forall f <- h.queue.queued + h.queue.appended ::
      && f.packetId == (if f.body.serial in h.handed then ToInt32(h.handed[f.body.serial]) else NO_PACKET)
      && f.body.serial < |h.collected|
  {
    AppendedAreLast(h);
    forall f <- h.queue.appended ensures f.body.serial !in h.handed && f.body.serial < |h.collected| {
      var k :| 0 <= k < |h.queue.appended| && h.queue.appended[k] == f;
    }
  }

  lemma ResetKeepsInv(h: History)
    requires Inv(h)
    ensures Inv(Step(h, Resetting))
  {
    var cleared := ClearIds(h.queue.queued);
    assert Bodies(cleared) == Bodies(h.queue.queued);
    SameBodiesSameMaximum(cleared, h.queue.queued);
    ResetKeepsPlaces(h.queue.queued);
    forall f <- cleared ensures f.packetId == NO_PACKET && f.body.serial < h.applied {
      var i :| 0 <= i < |h.queue.queued| && cleared[i] == f;
      assert h.queue.queued[i] in h.queue.queued;
    }
  }

  lemma ResetKeepsPlaces(frames: seq<Frame>)
    requires WellPlaced(frames)
    ensures WellPlaced(ClearIds(frames))
  {
    var cleared := ClearIds(frames);
    forall i, j | 0 <= i < j < |cleared| ensures Before(cleared[i], cleared[j]) {
      assert Before(frames[i], frames[j]);
    }
  }

  /** The queue invariant holds after any sequence of operations, with any ids. */
  lemma {:induction false} InvOnEveryRun(limit: uint32, ops: seq<Operation>)
    ensures Inv(Run(limit, ops))
  {
    if ops != [] {
      var before := Run(limit, ops[..|ops| - 1]);
      InvOnEveryRun(limit, ops[..|ops| - 1]);
      match ops[|ops| - 1]
      case Collecting(priority, content) => CollectKeepsInv(before, priority, content);
      case Applying => ApplyKeepsInv(before);
      case Preparing(id) => PrepareKeepsInv(before, id);
      case Acknowledging(id) => TicketKeepsInv(before, id);
      case Resetting => ResetKeepsInv(before);
    }
  }

  /** After any run and a reset (a new connection), draining hands out the queued frames, each once, by descending
      priority and within one priority in the order of application, up to the first that cannot be sent. */
  lemma {:induction false} DrainingAfterAnyRun(limit: uint32, ops: seq<Operation>, ids: seq<uint32>)
    requires |ids| >= |Run(limit, ops).queue.queued| && forall id <- ids :: PositiveId(id)
    ensures var q := Reset(Run(limit, ops).queue);
      var sorted := StableSort(q.queued);
      && Ordered(sorted) && multiset(sorted) == multiset(Bodies(Run(limit, ops).queue.queued))
      && Flatten(Drain(q, ids).lists) == sorted[..SendablePrefix(sorted, limit)]
  {
    var h := Run(limit, ops);
    InvOnEveryRun(limit, ops);
    ResetKeepsInv(h);
    LimitStays(limit, ops);
    var q := Reset(h.queue);
    PlacedIsInOrder(q.queued);
    assert Bodies(q.queued) == Bodies(h.queue.queued);
    DrainingIsStableSort(q, ids);
    SortIsPermutation(q.queued);
    StableSortOrdered(q.queued);
  }

  lemma StableSortOrdered(frames: seq<Frame>)
    requires InOrder(frames)
    ensures Ordered(StableSort(frames))
  {
    SortIsStable(frames, 255);
  }

  lemma PlacedIsInOrder(frames: seq<Frame>)
    requires WellPlaced(frames)
    ensures InOrder(frames)
  {
    forall i, j | 0 <= i < j < |frames| ensures frames[i].body.serial < frames[j].body.serial {
      assert Before(frames[i], frames[j]);
    }
  }

  lemma {:induction false} LimitStays(limit: uint32, ops: seq<Operation>)
    ensures Run(limit, ops).queue.limit == limit
  {
    if ops != [] {
      LimitStays(limit, ops[..|ops| - 1]);
    }
  }
}
