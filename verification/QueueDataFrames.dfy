/** QueueDataFrames (Frames/QueueDataFrames.cpp) as the program keeps it: frame objects whose packet ids are set
    in place. Every method is proved against FrameQueue. */
module QueueDataFrames {
  import opened Bytes
  import F = FrameQueue
  import R = RawFrames

  /** The part of DataFrameRawData that the queue uses. */
  class QueuedFrame {
    const content: F.Content
    const priority: byte
    ghost const serial: nat
    var packetId: int

    constructor (content: F.Content, priority: byte, ghost serial: nat)
      ensures View() == F.Frame(F.Body(serial, priority, content), F.NO_PACKET)
    {
      this.content := content;
      this.priority := priority;
      this.serial := serial;
      packetId := F.NO_PACKET;
    }

    ghost function View(): F.Frame
      reads this
    {
      F.Frame(F.Body(serial, priority, content), packetId)
    }

    method SetPacketId(id: int)
      modifies this
      ensures View() == old(View()).(packetId := id)
    {
      packetId := id;
    }
  }

  /** Distinct objects that hold these values. */
  ghost predicate Holds(frames: seq<QueuedFrame>, view: seq<F.Frame>)
    reads frames
  {
    && |frames| == |view|
    && (forall i, j :: 0 <= i < j < |frames| ==> frames[i] != frames[j])
    && (forall i :: 0 <= i < |frames| ==> frames[i].View() == view[i])
  }

  class QueueDataFrames {
    var appendedFramesList: seq<QueuedFrame>
    var queuedFramesList: seq<QueuedFrame>
    var appendingMaximumPriority: byte
    var queuedMaximumPriority: byte
    const maximumPacketSize: uint32
    ghost var appended: seq<F.Frame>
    ghost var queued: seq<F.Frame>

    constructor ()
      ensures Valid() && View() == F.Initial(1024 * 1024) && appendedFramesList == queuedFramesList == []
    {
      appendedFramesList, queuedFramesList, appended, queued := [], [], [], [];
      appendingMaximumPriority, queuedMaximumPriority := 1, 1;
      maximumPacketSize := 1024 * 1024;
    }

    /** Every frame stands in one place of one list. */
    ghost predicate Valid()
      reads this, appendedFramesList, queuedFramesList
    {
      && Holds(appendedFramesList, appended) && Holds(queuedFramesList, queued)
      && (forall f <- appendedFramesList :: f !in queuedFramesList)
    }

    ghost function View(): F.Queue
      reads this
    {
      F.Queue(appended, queued, appendingMaximumPriority, queuedMaximumPriority, maximumPacketSize)
    }

    method CollectAppendingFrame(frame: QueuedFrame?) returns (count: nat)
      requires Valid() && frame !in appendedFramesList && frame !in queuedFramesList
      modifies this
      ensures Valid() && count == |appendedFramesList| && queuedFramesList == old(queuedFramesList)
      ensures frame == null ==> View() == old(View()) && appendedFramesList == old(appendedFramesList)
      ensures frame != null ==>
        appendedFramesList == old(appendedFramesList) + [frame] && View() == F.Collect(old(View()), frame.View())
    {
      if frame == null {
        return |appendedFramesList|;
      }
      appendedFramesList := appendedFramesList + [frame];
      appended := appended + [frame.View()];
      if frame.priority > appendingMaximumPriority {
        appendingMaximumPriority := frame.priority;
      }
      count := |appendedFramesList|;
    }

    /** Collects a list; the highest priority is looked for among all collected frames again. */
    method CollectAppendingFramesList(list: seq<QueuedFrame>, ghost view: seq<F.Frame>) returns (count: nat)
      requires Valid() && appendingMaximumPriority == F.MaxPriority(appended) && Holds(list, view)
      requires forall f <- list :: f !in appendedFramesList && f !in queuedFramesList
      modifies this
      ensures Valid() && appendedFramesList == old(appendedFramesList) + list && count == |appendedFramesList|
      ensures queuedFramesList == old(queuedFramesList) && View() == F.CollectAll(old(View()), view)
    {
      hide Holds, F.MaxPriority;
      F.MaxPriorityIsMaximum(appended);
      HoldsBoth(appendedFramesList, appended, list, view);
      CollectedAtOnce(View(), view);
      appendedFramesList, appended := appendedFramesList + list, appended + view;
      ghost var collected := View();
      MaxOfFirst(appended);
      HeldCount(appendedFramesList, appended);
      for i := 0 to |appendedFramesList|
        invariant Valid() && |appendedFramesList| == |appended| && appendedFramesList == old(appendedFramesList) + list
        invariant queuedFramesList == old(queuedFramesList)
        invariant View() == collected.(appendingMaximum := appendingMaximumPriority)
        invariant appendingMaximumPriority == F.Max(old(appendingMaximumPriority), F.MaxPriority(appended[..i]))
      {
        MaxOfOneMore(appended, i);
        HeldAt(appendedFramesList, appended, i);
        var framePriority := appendedFramesList[i].priority;
        if framePriority > appendingMaximumPriority {
          appendingMaximumPriority := framePriority;
        }
      }
      assert appended[..|appended|] == appended;
      F.MaxPriorityAppend(old(appended), view);
      count := |appendedFramesList|;
    }

    method ApplyCollectedFrames() returns (count: nat)
      requires Valid()
      modifies this
      ensures Valid() && View() == F.Apply(old(View())) && appendedFramesList == []
      ensures queuedFramesList == old(queuedFramesList + appendedFramesList)
      ensures count == if old(appendedFramesList) == [] then 0 else |queuedFramesList|
    {
      if |appendedFramesList| == 0 {
        return 0;
      }
      HoldsBoth(queuedFramesList, queued, appendedFramesList, appended);
      queuedFramesList, queued := queuedFramesList + appendedFramesList, queued + appended;
      appendedFramesList, appended := [], [];
      if queuedMaximumPriority < appendingMaximumPriority {
        queuedMaximumPriority := appendingMaximumPriority;
      }
      appendingMaximumPriority := 1;
      count := |queuedFramesList|;
    }

    /** Sets the packet id of one queued frame. */
    method Mark(i: nat, id: int)
      requires Valid() && i < |queued|
      modifies queuedFramesList[i], this`queued
      ensures Valid() && queued == old(queued)[i := old(queued)[i].(packetId := id)]
      ensures queued[..i] == old(queued)[..i] && queued[i + 1..] == old(queued)[i + 1..]
      ensures queuedFramesList[i].View() == queued[i]
    {
      var frame := queuedFramesList[i];
      assert frame !in appendedFramesList;
      assert forall k :: 0 <= k < |queued| && k != i ==> queuedFramesList[k] != frame;
      frame.SetPacketId(id);
      queued := queued[i := queued[i].(packetId := id)];
    }

    method PrepareSendingList(id: uint32) returns (list: seq<QueuedFrame>)
      requires Valid()
      modifies queuedFramesList, this`queued
      ensures Valid() && View() == F.PrepareSendingList(old(View()), id).0
      ensures Holds(list, F.PrepareSendingList(old(View()), id).1) && forall f <- list :: f in queuedFramesList
    {
      hide F.Select, F.ToInt32, Holds, Continues;
      list := [];
      var dataSize: nat := 0;
      var i := 0;
      var count := Count();
      ghost var before, view: seq<F.Frame> := queued, [];
      NothingHeld();
      ContinueFromStart(before, queuedMaximumPriority, maximumPacketSize, id);
      assert queued[..0] == [];
      while i < count
        invariant Valid() && 0 <= i <= count == |before| == |queued| == |queuedFramesList| && queued[i..] == before[i..]
        invariant Holds(list, view) && forall f <- list :: f in queuedFramesList[..i]
        invariant Continues(before, i, queuedMaximumPriority, maximumPacketSize, id, dataSize, queued[..i], view)
      {
        var frame := At(i);
        ghost var passed := queued[..i];
        SameTail(queued, before, i);
        if frame.packetId < 1 && frame.priority >= queuedMaximumPriority {
          var needed := |frame.content| + F.LENGTH_SIZE;
          if dataSize + needed < maximumPacketSize {
            TakeOne(before, i, queuedMaximumPriority, maximumPacketSize, id, dataSize, passed, view);
            Mark(i, F.ToInt32(id));
            HoldsMore(list, view, frame);
            list, view := list + [frame], view + [frame.View()];
            dataSize := dataSize + needed;
          } else {
            break;
          }
        } else {
          PassOver(before, i, queuedMaximumPriority, maximumPacketSize, id, dataSize, passed, view);
        }
        assert queued[..i + 1] == passed + [queued[i]];
        i := i + 1;
      }
      Stop(before, i, queuedMaximumPriority, maximumPacketSize, id, dataSize, queued[..i], view);
      assert queued == queued[..i] + before[i..];
    }

    /** Removes every frame with the id, walking backwards, and finds the highest priority of the others. */
    method ApplyTicket(id: uint32) returns (count: nat)
      requires Valid()
      modifies this
      ensures Valid() && View() == F.ApplyTicket(old(View()), id)
      ensures count == |F.Carrying(old(queued), id, true)|
    {
      hide F.Carrying, F.MaxPriority, F.ToUInt32, Holds;
      count := 0;
      queuedMaximumPriority := 1;
      NoFrames(id);
      var i := Count();
      ghost var before := queued;
      assert queued[i..] == [] && queued[..i] == before[..i];
      while i > 0
        invariant Valid() && appendedFramesList == old(appendedFramesList) && appended == old(appended)
        invariant appendingMaximumPriority == old(appendingMaximumPriority)
        invariant forall f <- queuedFramesList :: f in old(queuedFramesList)
        invariant 0 <= i <= |queued| && i <= |before| && queued[..i] == before[..i]
        invariant queued[i..] == F.Carrying(before[i..], id, false)
        invariant count == |F.Carrying(before[i..], id, true)|
        invariant queuedMaximumPriority == F.MaxPriority(queued[i..])
      {
        i := i - 1;
        var frame := At(i);
        TicketFrom(before, queued, i, id);
        if F.ToUInt32(frame.packetId) == id {
          count := count + 1;
          RemoveAt(i);
        } else if frame.priority > queuedMaximumPriority {
          queuedMaximumPriority := frame.priority;
        }
      }
      assert before[0..] == before && queued[0..] == queued;
    }

    method At(i: nat) returns (frame: QueuedFrame)
      requires Valid() && i < |queued|
      ensures |queuedFramesList| == |queued| && frame == queuedFramesList[i] && frame.View() == queued[i]
      ensures frame !in queuedFramesList[..i]
    {
      frame := queuedFramesList[i];
    }

    method Count() returns (n: nat)
      requires Valid()
      ensures n == |queuedFramesList| == |queued|
    {
      n := |queuedFramesList|;
    }

    method RemoveAt(i: nat)
      requires Valid() && i < |queued|
      modifies this`queuedFramesList, this`queued
      ensures Valid() && |queued| == |old(queued)| - 1 && forall f <- queuedFramesList :: f in old(queuedFramesList)
      ensures queued[..i] == old(queued)[..i] && queued[i..] == old(queued)[i + 1..]
    {
      queuedFramesList := queuedFramesList[..i] + queuedFramesList[i + 1..];
      queued := queued[..i] + queued[i + 1..];
    }

    /** The queue as bytes, in queue order. */
    method MakeSnapshot() returns (data: seq<byte>)
      requires Valid()
      ensures data == R.Snapshot(Contents(queued))
    {
      data := [];
      var count := Count();
      assert queued[..0] == [];
      for i := 0 to count
        invariant data == R.Snapshot(Contents(queued[..i]))
      {
        SnapshotSnoc(queued[..i], queued[i]);
        assert queued[..i + 1] == queued[..i] + [queued[i]];
        var frame := At(i);
        data := data + Le32(|frame.content|) + frame.content;
      }
      assert queued[..count] == queued;
    }

    method Reset()
      requires Valid()
      modifies queuedFramesList, this`queued
      ensures Valid() && View() == F.Reset(old(View()))
    {
      hide Holds;
      var count := Count();
      for i := 0 to count
        invariant Valid() && count == |queuedFramesList| == |old(queued)|
        invariant queued == F.ClearIds(old(queued)[..i]) + old(queued)[i..]
      {
        ClearOne(old(queued), i);
        Mark(i, F.NO_PACKET);
      }
    }
  }

  /** Having passed i frames, the rest of the work is preparing the rest of the frames. */
  ghost predicate Continues(frames: seq<F.Frame>, i: nat, m: byte, limit: uint32, id: uint32, size: nat,
                            marked: seq<F.Frame>, list: seq<F.Frame>)
    requires i <= |frames|
  {
    var rest := F.Select(frames[i..], m, limit, id, size);
    F.Select(frames, m, limit, id, 0) == F.Prepared(marked + rest.frames, list + rest.list)
  }

  lemma SameTail(a: seq<F.Frame>, b: seq<F.Frame>, i: nat)
    requires i < |a| == |b| && a[i..] == b[i..]
    ensures a[i] == b[i] && a[i + 1..] == b[i + 1..]
  {
    assert a[i] == a[i..][0] && a[i..][1..] == a[i + 1..];
    assert b[i] == b[i..][0] && b[i..][1..] == b[i + 1..];
  }

  lemma ContinueFromStart(frames: seq<F.Frame>, m: byte, limit: uint32, id: uint32)
    ensures Continues(frames, 0, m, limit, id, 0, [], [])
  {
    assert frames[0..] == frames;
  }

  lemma PassOver(frames: seq<F.Frame>, i: nat, m: byte, limit: uint32, id: uint32, size: nat,
                 marked: seq<F.Frame>, list: seq<F.Frame>)
    requires i < |frames| && Continues(frames, i, m, limit, id, size, marked, list)
    requires !F.Waiting(frames[i]) || frames[i].body.priority < m
    ensures Continues(frames, i + 1, m, limit, id, size, marked + [frames[i]], list)
  {
    assert frames[i..][1..] == frames[i + 1..];
    var rest := F.Select(frames[i + 1..], m, limit, id, size);
    assert marked + ([frames[i]] + rest.frames) == marked + [frames[i]] + rest.frames;
  }

  lemma TakeOne(frames: seq<F.Frame>, i: nat, m: byte, limit: uint32, id: uint32, size: nat,
                marked: seq<F.Frame>, list: seq<F.Frame>)
    requires i < |frames| && Continues(frames, i, m, limit, id, size, marked, list)
    requires F.Waiting(frames[i]) && frames[i].body.priority >= m
    requires size + |frames[i].body.content| + F.LENGTH_SIZE < limit
    ensures var taken := frames[i].(packetId := F.ToInt32(id));
      Continues(frames, i + 1, m, limit, id, size + |frames[i].body.content| + F.LENGTH_SIZE,
                marked + [taken], list + [taken])
  {
    assert frames[i..][1..] == frames[i + 1..];
    var taken := frames[i].(packetId := F.ToInt32(id));
    var rest := F.Select(frames[i + 1..], m, limit, id, size + |frames[i].body.content| + F.LENGTH_SIZE);
    assert marked + ([taken] + rest.frames) == marked + [taken] + rest.frames;
    assert list + ([taken] + rest.list) == list + [taken] + rest.list;
  }

  /** The work ends behind the last frame and at the first that does not fit. */
  lemma Stop(frames: seq<F.Frame>, i: nat, m: byte, limit: uint32, id: uint32, size: nat,
             marked: seq<F.Frame>, list: seq<F.Frame>)
    requires i <= |frames| && Continues(frames, i, m, limit, id, size, marked, list)
    requires i < |frames| ==> F.Waiting(frames[i]) && frames[i].body.priority >= m
    requires i < |frames| ==> size + |frames[i].body.content| + F.LENGTH_SIZE >= limit
    ensures F.Select(frames, m, limit, id, 0) == F.Prepared(marked + frames[i..], list)
  {
    assert list + [] == list;
  }

  /** One step back from i + 1: the frame goes, or it stays and raises the maximum. */
  lemma TicketFrom(before: seq<F.Frame>, queued: seq<F.Frame>, i: nat, id: uint32)
    requires i < |before| && i < |queued| && queued[..i + 1] == before[..i + 1]
    requires queued[i + 1..] == F.Carrying(before[i + 1..], id, false)
    ensures queued[i] == before[i] && queued[..i] == before[..i]
    ensures var (f, m) := (before[i], F.MaxPriority(queued[i + 1..]));
      if F.ToUInt32(f.packetId) == id then
        && F.Carrying(before[i..], id, false) == queued[i + 1..]
        && |F.Carrying(before[i..], id, true)| == 1 + |F.Carrying(before[i + 1..], id, true)|
      else
        && F.Carrying(before[i..], id, false) == queued[i..]
        && |F.Carrying(before[i..], id, true)| == |F.Carrying(before[i + 1..], id, true)|
        && F.MaxPriority(queued[i..]) == if f.body.priority > m then f.body.priority else m
  {
    assert queued[i] == queued[..i + 1][i] && before[i] == before[..i + 1][i];
    assert before[i..][1..] == before[i + 1..] && queued[i..][1..] == queued[i + 1..];
    assert queued[i..] == [queued[i]] + queued[i + 1..];
  }

  lemma NoFrames(id: uint32)
    ensures F.MaxPriority([]) == 1 && forall carrying :: F.Carrying([], id, carrying) == []
  {
  }

  lemma NothingHeld()
    ensures Holds([], [])
  {
  }

  lemma HoldsBoth(a: seq<QueuedFrame>, av: seq<F.Frame>, b: seq<QueuedFrame>, bv: seq<F.Frame>)
    requires Holds(a, av) && Holds(b, bv) && forall f <- b :: f !in a
    ensures Holds(a + b, av + bv)
  {
    forall i, j | 0 <= i < j < |a + b| ensures (a + b)[i] != (a + b)[j] {
      if i < |a| <= j {
        assert a[i] in a && b[j - |a|] in b;
      }
    }
  }

  lemma HoldsMore(a: seq<QueuedFrame>, av: seq<F.Frame>, f: QueuedFrame)
    requires Holds(a, av) && f !in a
    ensures Holds(a + [f], av + [f.View()])
  {
  }

  lemma ClearOne(view: seq<F.Frame>, i: nat)
    requires i < |view|
    ensures var before := F.ClearIds(view[..i]) + view[i..];
      before[i := before[i].(packetId := F.NO_PACKET)] == F.ClearIds(view[..i + 1]) + view[i + 1..]
  {
  }

  function Contents(frames: seq<F.Frame>): (contents: seq<seq<byte>>)
    ensures |contents| == |frames| && R.Fit(contents)
  {
    if frames == [] then [] else Contents(frames[..|frames| - 1]) + [frames[|frames| - 1].body.content]
  }

  lemma SnapshotSnoc(frames: seq<F.Frame>, f: F.Frame)
    ensures R.Snapshot(Contents(frames + [f])) ==
      R.Snapshot(Contents(frames)) + Le32(|f.body.content|) + f.body.content
  {
    assert (frames + [f])[..|frames|] == frames;
    EntriesSnoc(Contents(frames), f.body.content);
    FlattenSnoc(R.Entries(Contents(frames)), R.Entry(f.body.content));
    var (a, b, c) := (R.Snapshot(Contents(frames)), Le32(|f.body.content|), f.body.content);
    assert a + (b + c) == a + b + c;
  }

  lemma {:induction false} SnapshotFront(f: F.Frame, rest: seq<F.Frame>)
    ensures |R.Snapshot(Contents([f] + rest))| == 4 + |f.body.content| + |R.Snapshot(Contents(rest))|
  {
    if rest == [] {
      SnapshotSnoc([], f);
      assert [] + [f] == [f] + rest;
      NoSnapshot();
    } else {
      var before, last := rest[..|rest| - 1], rest[|rest| - 1];
      assert rest == before + [last] && [f] + rest == [f] + before + [last];
      SnapshotFront(f, before);
      SnapshotSnoc(before, last);
      SnapshotSnoc([f] + before, last);
    }
  }

  lemma NoSnapshot()
    ensures R.Snapshot(Contents([])) == []
  {
  }

  lemma {:induction false} SelectedFit(frames: seq<F.Frame>, m: byte, limit: uint32, id: uint32, size: nat)
    ensures var list := F.Select(frames, m, limit, id, size).list;
      list != [] ==> size + |R.Snapshot(Contents(list))| < limit
  {
    hide Contents;
    NoSnapshot();
    if frames != [] {
      var f := frames[0];
      var needed := |f.body.content| + F.LENGTH_SIZE;
      SelectedFit(frames[1..], m, limit, id, size);
      SelectedFit(frames[1..], m, limit, id, size + needed);
      if F.Waiting(f) && f.body.priority >= m && size + needed < limit {
        var more := F.Select(frames[1..], m, limit, id, size + needed);
        SnapshotFront(f.(packetId := F.ToInt32(id)), more.list);
      }
    }
  }

  /** What is handed out fits into a packet: written one after the other, each behind its length, the listed
      frames take less than the limit, whatever is in the queue. */
  lemma {:induction false} ListFitsPacket(q: F.Queue, id: uint32)
    ensures var list := F.PrepareSendingList(q, id).1; list != [] ==> |R.Snapshot(Contents(list))| < q.limit
  {
    SelectedFit(q.queued, q.queuedMaximum, q.limit, id, 0);
  }

  lemma {:induction false} EntriesSnoc(buffers: seq<seq<byte>>, last: seq<byte>)
    requires R.Fit(buffers) && |last| < 0x1_0000_0000
    ensures R.Entries(buffers + [last]) == R.Entries(buffers) + [R.Entry(last)]
  {
    if buffers != [] {
      EntriesSnoc(buffers[1..], last);
      assert (buffers + [last])[1..] == buffers[1..] + [last];
    }
  }

  lemma HeldCount(frames: seq<QueuedFrame>, view: seq<F.Frame>)
    requires Holds(frames, view)
    ensures |frames| == |view|
  {
  }

  lemma HeldAt(frames: seq<QueuedFrame>, view: seq<F.Frame>, i: nat)
    requires Holds(frames, view) && i < |view|
    ensures |frames| == |view| && frames[i].View() == view[i]
  {
  }

  lemma MaxOfFirst(frames: seq<F.Frame>)
    ensures F.MaxPriority(frames[..0]) == 1
  {
  }

  lemma MaxOfOneMore(frames: seq<F.Frame>, i: nat)
    requires i < |frames|
    ensures F.MaxPriority(frames[..i + 1]) == F.Max(F.MaxPriority(frames[..i]), frames[i].body.priority)
  {
    F.MaxPriorityIsMaximum(frames[..i]);
    F.MaxPriorityAppend(frames[..i], [frames[i]]);
    assert frames[..i + 1] == frames[..i] + [frames[i]];
  }

  lemma {:induction false} CollectedAtOnce(q: F.Queue, frames: seq<F.Frame>)
    requires q.appendingMaximum == F.MaxPriority(q.appended)
    ensures F.CollectAll(q, frames) ==
      q.(appended := q.appended + frames, appendingMaximum := F.MaxPriority(q.appended + frames))
    decreases |frames|
  {
    if frames == [] {
      assert q.appended + frames == q.appended;
    } else {
      F.MaxPriorityAppend(q.appended, [frames[0]]);
      F.MaxPriorityIsMaximum(q.appended);
      CollectedAtOnce(F.Collect(q, frames[0]), frames[1..]);
      assert q.appended + [frames[0]] + frames[1..] == q.appended + frames;
    }
  }
}
