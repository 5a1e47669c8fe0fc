/** What the frame queue guarantees: draining is a stable sort by priority, and what every run keeps. */
module FrameQueueTheorems {
  import opened Bytes
  import opened FrameQueue

  // ---------- one round ----------

  lemma {:induction false} NothingCarries(frames: seq<Frame>, id: uint32)
    requires AllWaiting(frames) && PositiveId(id)
    ensures Carrying(frames, id, false) == frames
  {
    if frames != [] {
      NothingCarries(frames[1..], id);
    }
  }

  lemma ClassCons(f: Frame, rest: seq<Frame>, p: byte)
    ensures Class([f] + rest, p) == (if f.body.priority == p then [f.body] else []) + Class(rest, p)
  {
    assert ([f] + rest)[1..] == rest;
  }

  lemma CarryingCons(f: Frame, rest: seq<Frame>, id: uint32, carrying: bool)
    ensures Carrying([f] + rest, id, carrying)
         == (if (ToUInt32(f.packetId) == id) == carrying then [f] else []) + Carrying(rest, id, carrying)
  {
    assert ([f] + rest)[1..] == rest;
  }

  lemma ClassesCons(f: Frame, a: seq<Frame>, b: seq<Frame>)
    ensures forall p: byte :: Class(a, p) == Class(b, p) ==> Class([f] + a, p) == Class([f] + b, p)
    ensures forall p: byte :: p != f.body.priority ==> Class([f] + a, p) == Class(a, p)
  {
    forall p: byte
      ensures Class(a, p) == Class(b, p) ==> Class([f] + a, p) == Class([f] + b, p)
      ensures p != f.body.priority ==> Class([f] + a, p) == Class(a, p)
    {
      ClassCons(f, a, p);
      ClassCons(f, b, p);
    }
  }

  /** What is left of the frames when a list was prepared and its ticket came back. */
  function Left(frames: seq<Frame>, m: byte, limit: uint32, id: uint32, size: nat): seq<Frame> {
    Carrying(Select(frames, m, limit, id, size).frames, id, false)
  }

  ghost predicate TakesPrefix(frames: seq<Frame>, m: byte, limit: uint32, id: uint32, size: nat) {
    var left := Left(frames, m, limit, id, size);
    var n := Fitting(Class(frames, m), limit, size);
    && AllWaiting(left) && |left| + n == |frames|
    && Bodies(Select(frames, m, limit, id, size).list) == Class(frames, m)[..n]
    && Class(left, m) == Class(frames, m)[n..]
    && (forall p: byte :: p != m ==> Class(left, p) == Class(frames, p))
    && (n == 0 ==> left == frames)
  }

  lemma LowerFrameStays(f: Frame, rest: seq<Frame>, m: byte, limit: uint32, id: uint32, size: nat)
    requires AllWaiting([f] + rest) && PositiveId(id) && f.body.priority < m && TakesPrefix(rest, m, limit, id, size)
    ensures TakesPrefix([f] + rest, m, limit, id, size)
  {
    hide Carrying, Class, Fitting, Bodies;
    assert f in [f] + rest;
    assert ([f] + rest)[1..] == rest;
    var kept := Select(rest, m, limit, id, size).frames;
    CarryingCons(f, kept, id, false);
    assert Left([f] + rest, m, limit, id, size) == [f] + Left(rest, m, limit, id, size);
    ClassesCons(f, Left(rest, m, limit, id, size), rest);
    ClassesCons(f, rest, rest);
  }

  lemma FittingFrameGoes(f: Frame, rest: seq<Frame>, m: byte, limit: uint32, id: uint32, size: nat)
    requires AllWaiting([f] + rest) && PositiveId(id) && f.body.priority == m
    requires size + |f.body.content| + LENGTH_SIZE < limit
    requires TakesPrefix(rest, m, limit, id, size + |f.body.content| + LENGTH_SIZE)
    ensures TakesPrefix([f] + rest, m, limit, id, size)
  {
    hide Carrying, Class, Select, Fitting, ToInt32;
    assert f in [f] + rest;
    var next := size + |f.body.content| + LENGTH_SIZE;
    var marked := f.(packetId := ToInt32(id));
    var more := Select(rest, m, limit, id, next);
    SelectTakes(f, rest, m, limit, id, size);
    CarryingCons(marked, more.frames, id, false);
    MarkedCarries(id);
    assert [] + Left(rest, m, limit, id, next) == Left(rest, m, limit, id, next);
    ClassesCons(f, rest, rest);
    ClassCons(f, rest, m);
    assert Class([f] + rest, m)[1..] == Class(rest, m);
    FittingCons(f.body, Class(rest, m), limit, size);
    assert Bodies([marked] + more.list) == [f.body] + Bodies(more.list);
  }

  lemma SelectTakes(f: Frame, rest: seq<Frame>, m: byte, limit: uint32, id: uint32, size: nat)
    requires Waiting(f) && f.body.priority == m && size + |f.body.content| + LENGTH_SIZE < limit
    ensures var (marked, more) :=
        (f.(packetId := ToInt32(id)), Select(rest, m, limit, id, size + |f.body.content| + LENGTH_SIZE));
      Select([f] + rest, m, limit, id, size) == Prepared([marked] + more.frames, [marked] + more.list)
  {
    assert ([f] + rest)[1..] == rest;
  }

  lemma MarkedCarries(id: uint32)
    requires PositiveId(id)
    ensures ToUInt32(ToInt32(id)) == id
  {
  }

  lemma FittingCons(b: Body, rest: seq<Body>, limit: uint32, size: nat)
    ensures var next := size + |b.content| + LENGTH_SIZE;
      Fitting([b] + rest, limit, size) == if next < limit then 1 + Fitting(rest, limit, next) else 0
  {
    assert ([b] + rest)[1..] == rest;
  }

  /** A round takes the longest prefix of the highest class that fits off that class, and leaves everything else. */
  lemma {:induction false} RoundTakesPrefix(frames: seq<Frame>, m: byte, limit: uint32, id: uint32, size: nat)
    requires AllWaiting(frames) && PositiveId(id) && forall f <- frames :: f.body.priority <= m
    ensures TakesPrefix(frames, m, limit, id, size)
  {
    if frames != [] {
      var f, rest := frames[0], frames[1..];
      assert frames == [f] + rest;
      if f.body.priority < m {
        RoundTakesPrefix(rest, m, limit, id, size);
        LowerFrameStays(f, rest, m, limit, id, size);
      } else if size + |f.body.content| + LENGTH_SIZE < limit {
        RoundTakesPrefix(rest, m, limit, id, size + |f.body.content| + LENGTH_SIZE);
        FittingFrameGoes(f, rest, m, limit, id, size);
      } else {
        NothingCarries(frames, id);
      }
    }
  }

  // ---------- draining ----------

  lemma {:induction false} HighestFirst(frames: seq<Frame>, m: byte, p: byte)
    requires m <= p && forall q: byte :: q > m ==> Class(frames, q) == []
    ensures SortedFrom(frames, p) == SortedFrom(frames, m)
    decreases p
  {
    if p > m {
      HighestFirst(frames, m, p - 1);
      assert [] + SortedFrom(frames, p - 1) == SortedFrom(frames, p - 1);
    }
  }

  /** A round that takes n frames off the highest class takes them off the front of the sorted queue. */
  lemma SortLosesPrefix(frames: seq<Frame>, left: seq<Frame>, m: byte, n: nat)
    requires n <= |Class(frames, m)| && Class(left, m) == Class(frames, m)[n..]
    requires forall q: byte :: q != m ==> Class(left, q) == Class(frames, q)
    requires forall q: byte :: q > m ==> Class(frames, q) == []
    ensures StableSort(frames) == Class(frames, m)[..n] + StableSort(left)
  {
    hide SortedFrom, Class;
    HighestFirst(frames, m, 255);
    HighestFirst(left, m, 255);
    TopThenRest(frames, m);
    TopThenRest(left, m);
    if m > 0 {
      SameClassesSameOrder(frames, left, m - 1);
    }
    var rest := if m == 0 then [] else SortedFrom(frames, m - 1);
    assert Class(frames, m) + rest == Class(frames, m)[..n] + (Class(frames, m)[n..] + rest);
  }

  lemma TopThenRest(frames: seq<Frame>, m: byte)
    ensures SortedFrom(frames, m) == Class(frames, m) + if m == 0 then [] else SortedFrom(frames, m - 1)
  {
  }

  lemma {:induction false} SameClassesSameOrder(a: seq<Frame>, b: seq<Frame>, p: byte)
    requires forall q: byte :: q <= p ==> Class(a, q) == Class(b, q)
    ensures SortedFrom(a, p) == SortedFrom(b, p)
    decreases p
  {
    if p > 0 {
      SameClassesSameOrder(a, b, p - 1);
    }
  }

  lemma {:induction false} ClassMembers(frames: seq<Frame>, p: byte)
    ensures forall b <- Class(frames, p) :: b.priority == p && exists f <- frames :: f.body == b
    ensures Class(frames, p) == [] <==> forall f <- frames :: f.body.priority != p
  {
    if frames != [] {
      ClassMembers(frames[1..], p);
    }
  }

  lemma {:induction false} FitsAlone(bodies: seq<Body>, limit: uint32, size: nat)
    requires forall b <- bodies :: b.priority >= 1
    ensures forall i :: 0 <= i < Fitting(bodies, limit, size) ==> Sendable(bodies[i], limit)
  {
    if bodies != [] && size + |bodies[0].content| + LENGTH_SIZE < limit {
      FitsAlone(bodies[1..], limit, size + |bodies[0].content| + LENGTH_SIZE);
    }
  }

  lemma {:induction false} SendablePrefixSkips(front: seq<Body>, rest: seq<Body>, limit: uint32)
    requires forall b <- front :: Sendable(b, limit)
    ensures SendablePrefix(front + rest, limit) == |front| + SendablePrefix(rest, limit)
  {
    if front == [] {
      assert front + rest == rest;
    } else {
      assert (front + rest)[1..] == front[1..] + rest;
      SendablePrefixSkips(front[1..], rest, limit);
    }
  }

  /** One round on the sorted queue: a prefix goes, and it is empty only when the first frame cannot be sent at all. */
  lemma {:induction false} RoundOnSorted(q: Queue, id: uint32)
    requires AllWaiting(q.queued) && PositiveId(id) && q.queuedMaximum == MaxPriority(q.queued)
    ensures var (prepared, list) := PrepareSendingList(q, id);
      var after := ApplyTicket(prepared, id);
      && AllWaiting(after.queued) && after.queuedMaximum == MaxPriority(after.queued) && after.limit == q.limit
      && |after.queued| + |list| == |q.queued|
      && StableSort(q.queued) == Bodies(list) + StableSort(after.queued)
      && (forall b <- Bodies(list) :: Sendable(b, q.limit))
      && (list == [] ==> after == q)
      && (list == [] <==> SendablePrefix(StableSort(q.queued), q.limit) == 0)
  {
    var m := q.queuedMaximum;
    var top := Class(q.queued, m);
    MaxPriorityIsMaximum(q.queued);
    RoundTakesPrefix(q.queued, m, q.limit, id, 0);
    forall p: byte | p > m ensures Class(q.queued, p) == [] {
      ClassMembers(q.queued, p);
    }
    var n := Fitting(top, q.limit, 0);
    SortLosesPrefix(q.queued, Left(q.queued, m, q.limit, id, 0), m, n);
    ClassMembers(q.queued, m);
    FitsAlone(top, q.limit, 0);
    if n == 0 {
      NothingSendable(q);
    } else {
      SendablePrefixSkips(top[..n], StableSort(Left(q.queued, m, q.limit, id, 0)), q.limit);
    }
  }

  lemma NothingSendable(q: Queue)
    requires q.queuedMaximum == MaxPriority(q.queued) && Fitting(Class(q.queued, q.queuedMaximum), q.limit, 0) == 0
    ensures SendablePrefix(StableSort(q.queued), q.limit) == 0
  {
    var m := q.queuedMaximum;
    MaxPriorityIsMaximum(q.queued);
    forall p: byte | p > m ensures Class(q.queued, p) == [] {
      ClassMembers(q.queued, p);
    }
    HighestFirst(q.queued, m, 255);
    ClassMembers(q.queued, m);
    if Class(q.queued, m) == [] {
      assert m == 1;
      assert SortedFrom(q.queued, 1) == [] + SortedFrom(q.queued, 0);
      ClassMembers(q.queued, 0);
    }
  }

  /** Draining is a stable sort by priority. From a queue with nothing in flight, as many rounds as there are
      frames, under any positive ids, hand out exactly the frames of the stable sort before the first one that
      cannot be sent, in that order, and the queue that is left holds the others, sorted the same way. */
  lemma {:induction false} DrainingIsStableSort(q: Queue, ids: seq<uint32>)
    requires AllWaiting(q.queued) && q.queuedMaximum == MaxPriority(q.queued)
    requires |ids| >= |q.queued| && forall id <- ids :: PositiveId(id)
    ensures var drained := Drain(q, ids);
      var sorted := StableSort(q.queued);
      var n := SendablePrefix(sorted, q.limit);
      && Flatten(drained.lists) == sorted[..n]
      && StableSort(drained.queue.queued) == sorted[n..]
      && |drained.queue.queued| == |q.queued| - n
    decreases |ids|
  {
    hide StableSort, Bodies, MaxPriority, Select;
    if ids == [] {
      EmptySort(q.queued);
    } else {
      var (prepared, list) := PrepareSendingList(q, ids[0]);
      var after := ApplyTicket(prepared, ids[0]);
      RoundOnSorted(q, ids[0]);
      if list == [] {
        StuckForGood(q, ids);
      } else {
        DrainingIsStableSort(after, ids[1..]);
        SendablePrefixSkips(Bodies(list), StableSort(after.queued), q.limit);
        CutBehind(Bodies(list), StableSort(after.queued), SendablePrefix(StableSort(after.queued), q.limit));
      }
    }
  }

  lemma CutBehind<T>(a: seq<T>, b: seq<T>, k: nat)
    requires k <= |b|
    ensures (a + b)[..|a| + k] == a + b[..k] && (a + b)[|a| + k..] == b[k..]
  {
  }

  lemma EmptySort(frames: seq<Frame>)
    requires frames == []
    ensures StableSort(frames) == []
  {
    forall p: byte ensures Class(frames, p) == [] {
    }
    HighestFirst(frames, 0, 255);
  }

  lemma {:induction false} StuckForGood(q: Queue, ids: seq<uint32>)
    requires AllWaiting(q.queued) && q.queuedMaximum == MaxPriority(q.queued) && forall id <- ids :: PositiveId(id)
    requires SendablePrefix(StableSort(q.queued), q.limit) == 0
    ensures Flatten(Drain(q, ids).lists) == [] && Drain(q, ids).queue == q
    decreases |ids|
  {
    hide StableSort, MaxPriority, Select;
    if ids != [] {
      var (prepared, list) := PrepareSendingList(q, ids[0]);
      RoundOnSorted(q, ids[0]);
      StuckForGood(q, ids[1..]);
    }
  }

  /** Everything is handed out iff every frame can be sent. */
  lemma {:induction false} EverythingDrainsIffSendable(q: Queue, ids: seq<uint32>)
    requires AllWaiting(q.queued) && q.queuedMaximum == MaxPriority(q.queued)
    requires |ids| >= |q.queued| && forall id <- ids :: PositiveId(id)
    ensures (Drain(q, ids).queue.queued == [] && Flatten(Drain(q, ids).lists) == StableSort(q.queued))
       <==> forall f <- q.queued :: Sendable(f.body, q.limit)
  {
    hide StableSort, Drain;
    DrainingIsStableSort(q, ids);
    SortIsPermutation(q.queued);
    var sorted := StableSort(q.queued);
    assert |multiset(sorted)| == |multiset(Bodies(q.queued))|;
    var n := SendablePrefix(sorted, q.limit);
    if n == |q.queued| {
      forall f <- q.queued ensures Sendable(f.body, q.limit) {
        var i :| 0 <= i < |q.queued| && q.queued[i] == f;
        assert Bodies(q.queued)[i] in multiset(Bodies(q.queued));
        assert f.body in multiset(sorted);
      }
    } else {
      assert sorted[n] in multiset(sorted);
      var i :| 0 <= i < |q.queued| && Bodies(q.queued)[i] == sorted[n];
      assert q.queued[i] in q.queued;
    }
  }

  // ---------- the sort is a sort ----------

  lemma {:induction false} ClassCounts(frames: seq<Frame>, p: byte, b: Body)
    ensures multiset(Class(frames, p))[b] == if b.priority == p then multiset(Bodies(frames))[b] else 0
  {
    if frames != [] {
      ClassCounts(frames[1..], p, b);
      assert Bodies(frames) == [frames[0].body] + Bodies(frames[1..]);
    }
  }

  lemma {:induction false} SortCounts(frames: seq<Frame>, p: byte, b: Body)
    ensures multiset(SortedFrom(frames, p))[b] == if b.priority <= p then multiset(Bodies(frames))[b] else 0
    decreases p
  {
    hide Class, Bodies, SortedFrom;
    ClassCounts(frames, p, b);
    TopThenRest(frames, p);
    if p == 0 {
      CountsAppend(Class(frames, p), [], b);
    } else {
      SortCounts(frames, p - 1, b);
      CountsAppend(Class(frames, p), SortedFrom(frames, p - 1), b);
    }
  }

  lemma CountsAppend<T>(s: seq<T>, t: seq<T>, x: T)
    ensures multiset(s + t)[x] == multiset(s)[x] + multiset(t)[x]
  {
  }

  lemma {:induction false} SortIsPermutation(frames: seq<Frame>)
    ensures multiset(StableSort(frames)) == multiset(Bodies(frames))
  {
    forall b: Body ensures multiset(StableSort(frames))[b] == multiset(Bodies(frames))[b] {
      SortCounts(frames, 255, b);
    }
  }

  /** In queue order, that is in the order of application. */
  ghost predicate InOrder(frames: seq<Frame>) {
    forall i, j :: 0 <= i < j < |frames| ==> frames[i].body.serial < frames[j].body.serial
  }

  predicate Precedes(a: Body, b: Body) {
    a.priority > b.priority || (a.priority == b.priority && a.serial < b.serial)
  }

  ghost predicate Ordered(bodies: seq<Body>) {
    forall i, j :: 0 <= i < j < |bodies| ==> Precedes(bodies[i], bodies[j])
  }

  lemma {:induction false} ClassOrdered(frames: seq<Frame>, p: byte)
    requires InOrder(frames)
    ensures Ordered(Class(frames, p))
  {
    if frames != [] {
      ClassOrdered(frames[1..], p);
      ClassMembers(frames[1..], p);
      if frames[0].body.priority == p {
        var rest := Class(frames[1..], p);
        forall j | 0 <= j < |rest| ensures Precedes(frames[0].body, rest[j]) {
          assert rest[j] in rest;
          var i :| 0 <= i < |frames[1..]| && frames[1..][i].body == rest[j];
          assert frames[i + 1].body == rest[j];
        }
      }
    }
  }

  lemma OrderedAppend(a: seq<Body>, b: seq<Body>)
    requires Ordered(a) && Ordered(b) && forall x <- a, y <- b :: Precedes(x, y)
    ensures Ordered(a + b)
  {
    forall i, j | 0 <= i < j < |a + b| ensures Precedes((a + b)[i], (a + b)[j]) {
      if i < |a| <= j {
        assert a[i] in a && b[j - |a|] in b;
      }
    }
  }

  /** Higher priorities first, and within one priority the order of application. */
  lemma {:induction false} SortIsStable(frames: seq<Frame>, p: byte)
    requires InOrder(frames)
    ensures Ordered(SortedFrom(frames, p)) && forall b <- SortedFrom(frames, p) :: b.priority <= p
    decreases p
  {
    ClassOrdered(frames, p);
    ClassMembers(frames, p);
    if p > 0 {
      SortIsStable(frames, p - 1);
      TopThenRest(frames, p);
      OrderedAppend(Class(frames, p), SortedFrom(frames, p - 1));
    }
  }
}
