/** The priority queue of frames (Frames/QueueDataFrames.cpp) on values: frames are handed out under a packet id,
    highest priority first and as many as fit into a packet, and removed by the ticket for that id. */
module FrameQueue {
  import opened Bytes

  /** A frame's length and its 4-byte length prefix fit an int. */
  type Content = s: seq<byte> | |s| < 0x7FFF_FFFC

  /** What a frame is. `serial` is history: its place in the order in which frames were applied. */
  datatype Body = Body(serial: nat, priority: byte, content: Content)

  /** A queued frame: a packet id below 1 means that it waits, any other that it is in flight. */
  datatype Frame = Frame(body: Body, packetId: int)

  const NO_PACKET := -1
  const LENGTH_SIZE := 4

  predicate Waiting(f: Frame) {
    f.packetId < 1
  }

  /** Ids are unsigned in the interface and signed in the frame. */
  function ToInt32(id: uint32): int {
    if id < 0x8000_0000 then id else id - 0x1_0000_0000
  }

  function ToUInt32(n: int): uint32 {
    n % 0x1_0000_0000
  }

  predicate PositiveId(id: uint32) {
    1 <= id < 0x8000_0000
  }

  /** The highest priority of the frames, but at least 1. */
  function MaxPriority(frames: seq<Frame>): byte {
    if frames == [] then 1
    else
      var m := MaxPriority(frames[1..]);
      if frames[0].body.priority > m then frames[0].body.priority else m
  }

  lemma {:induction false} MaxPriorityIsMaximum(frames: seq<Frame>)
    ensures var m := MaxPriority(frames);
      m >= 1 && (forall f <- frames :: f.body.priority <= m) && (m == 1 || exists f <- frames :: f.body.priority == m)
  {
    if frames != [] {
      MaxPriorityIsMaximum(frames[1..]);
    }
  }

  function Max(a: byte, b: byte): byte {
    if a > b then a else b
  }

  lemma {:induction false} MaxPriorityAppend(a: seq<Frame>, b: seq<Frame>)
    ensures MaxPriority(a + b) == Max(MaxPriority(a), MaxPriority(b))
  {
    if a == [] {
      assert a + b == b;
      MaxPriorityIsMaximum(b);
    } else {
      assert (a + b)[1..] == a[1..] + b;
      MaxPriorityAppend(a[1..], b);
    }
  }

  /** `limit` is the packet size that a list must stay under. */
  datatype Queue = Queue(
    appended: seq<Frame>, queued: seq<Frame>, appendingMaximum: byte, queuedMaximum: byte, limit: uint32)

  function Initial(limit: uint32): Queue {
    Queue([], [], 1, 1, limit)
  }

  // ---------- operations ----------

  function Collect(q: Queue, f: Frame): Queue {
    q.(appended := q.appended + [f], appendingMaximum := Max(q.appendingMaximum, f.body.priority))
  }

  function CollectAll(q: Queue, frames: seq<Frame>): Queue
    decreases |frames|
  {
    if frames == [] then q else CollectAll(Collect(q, frames[0]), frames[1..])
  }

  function Apply(q: Queue): Queue {
    if q.appended == [] then q
    else
      q.(queued := q.queued + q.appended, appended := [], queuedMaximum := Max(q.queuedMaximum, q.appendingMaximum),
         appendingMaximum := 1)
  }

  datatype Prepared = Prepared(frames: seq<Frame>, list: seq<Frame>)

  /** From the first frame on: a waiting frame of at least priority m is marked and listed while it fits; the first one
      that does not fit ends the list. */
  function Select(frames: seq<Frame>, m: byte, limit: uint32, id: uint32, size: nat): Prepared {
    if frames == [] then Prepared([], [])
    else
      var f := frames[0];
      if !Waiting(f) || f.body.priority < m then
        var more := Select(frames[1..], m, limit, id, size);
        Prepared([f] + more.frames, more.list)
      else
        var needed := |f.body.content| + LENGTH_SIZE;
        if size + needed < limit then
          var marked := f.(packetId := ToInt32(id));
          var more := Select(frames[1..], m, limit, id, size + needed);
          Prepared([marked] + more.frames, [marked] + more.list)
        else Prepared(frames, [])
  }

  function PrepareSendingList(q: Queue, id: uint32): (Queue, seq<Frame>) {
    var prepared := Select(q.queued, q.queuedMaximum, q.limit, id, 0);
    (q.(queued := prepared.frames), prepared.list)
  }

  /** The frames that do (not) carry an id. */
  function Carrying(frames: seq<Frame>, id: uint32, carrying: bool): seq<Frame> {
    if frames == [] then []
    else
      (if (ToUInt32(frames[0].packetId) == id) == carrying then [frames[0]] else [])
      + Carrying(frames[1..], id, carrying)
  }

  function ApplyTicket(q: Queue, id: uint32): Queue {
    var kept := Carrying(q.queued, id, false);
    q.(queued := kept, queuedMaximum := MaxPriority(kept))
  }

  function ClearIds(frames: seq<Frame>): seq<Frame> {
    seq(|frames|, i requires 0 <= i < |frames| => frames[i].(packetId := NO_PACKET))
  }

  function Reset(q: Queue): Queue {
    q.(queued := ClearIds(q.queued))
  }

  // ---------- draining ----------

  /** The frames of one priority, in queue order. */
  function Class(frames: seq<Frame>, p: byte): seq<Body> {
    if frames == [] then []
    else (if frames[0].body.priority == p then [frames[0].body] else []) + Class(frames[1..], p)
  }

  /** The frames stably sorted by descending priority: of priority p first, then p - 1, each in queue order. */
  function SortedFrom(frames: seq<Frame>, p: byte): seq<Body> {
    Class(frames, p) + if p == 0 then [] else SortedFrom(frames, p - 1)
  }

  function StableSort(frames: seq<Frame>): seq<Body> {
    SortedFrom(frames, 255)
  }

  /** A frame that can be sent at all: alone, it fits into a packet; and priority 0 is under every maximum. */
  predicate Sendable(b: Body, limit: uint32) {
    b.priority >= 1 && |b.content| + LENGTH_SIZE < limit
  }

  function SendablePrefix(bodies: seq<Body>, limit: uint32): (n: nat)
    ensures n <= |bodies|
    ensures forall i :: 0 <= i < n ==> Sendable(bodies[i], limit)
    ensures n < |bodies| ==> !Sendable(bodies[n], limit)
  {
    if bodies == [] || !Sendable(bodies[0], limit) then 0 else 1 + SendablePrefix(bodies[1..], limit)
  }

  function Bodies(frames: seq<Frame>): (bodies: seq<Body>)
    ensures |bodies| == |frames|
  {
    seq(|frames|, i requires 0 <= i < |frames| => frames[i].body)
  }

  datatype Drained = Drained(lists: seq<seq<Body>>, queue: Queue)

  /** One round for every id: a list is prepared under it, and its ticket comes back. */
  function Drain(q: Queue, ids: seq<uint32>): Drained
    decreases |ids|
  {
    if ids == [] then Drained([], q)
    else
      var (prepared, list) := PrepareSendingList(q, ids[0]);
      var more := Drain(ApplyTicket(prepared, ids[0]), ids[1..]);
      Drained([Bodies(list)] + more.lists, more.queue)
  }

  /** How many frames from the front fit into one packet together. */
  function Fitting(bodies: seq<Body>, limit: uint32, size: nat): (n: nat)
    ensures n <= |bodies|
  {
    if bodies == [] || size + |bodies[0].content| + LENGTH_SIZE >= limit then 0
    else 1 + Fitting(bodies[1..], limit, size + |bodies[0].content| + LENGTH_SIZE)
  }

  ghost predicate AllWaiting(frames: seq<Frame>) {
    forall f <- frames :: -0x8000_0000 <= f.packetId < 1
  }
}
