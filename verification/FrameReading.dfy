/** When the loop of readFrames ends (Frames/DataFramesFactory.cpp): the starts of frames it visits, and what
    their lengths lead to. */
module FrameReading {
  import opened Bytes
  import opened DataStreams
  import opened FrameCodec
  import opened FrameCodecTheorems

  // ---------- the starts that are visited ----------

  /** Where the reader stands after n rounds, if it goes on so long. */
  function Visited(ds: Definitions, data: seq<byte>, start: nat, n: nat): (p: nat)
    requires start <= |data|
    ensures p <= |data|
    decreases n
  {
    if n == 0 then start else Visited(ds, data, ReadFrame(ds, data, start).next, n - 1)
  }

  /** The loop ends here: at the end of the data, or where no frame can be decoded. */
  predicate Stops(ds: Definitions, data: seq<byte>, p: nat)
    requires p <= |data|
  {
    p == |data| || ReadFrame(ds, data, p).frame.None?
  }

  /** The reader gets as far as its n-th round. */
  ghost predicate Reached(ds: Definitions, data: seq<byte>, start: nat, n: nat)
    requires start <= |data|
  {
    forall k :: 0 <= k < n ==> !Stops(ds, data, Visited(ds, data, start, k))
  }

  /** It comes to a start where it has been before. */
  ghost predicate Repeats(ds: Definitions, data: seq<byte>, start: nat, i: nat, j: nat)
    requires start <= |data|
  {
    i < j && Reached(ds, data, start, j) && Visited(ds, data, start, i) == Visited(ds, data, start, j)
  }

  lemma {:induction false} VisitedNext(ds: Definitions, data: seq<byte>, start: nat, n: nat)
    requires start <= |data|
    ensures Visited(ds, data, start, n + 1) == ReadFrame(ds, data, Visited(ds, data, start, n)).next
    decreases n
  {
    hide ReadFrame;
    if n > 0 {
      VisitedNext(ds, data, ReadFrame(ds, data, start).next, n - 1);
    }
  }

  lemma ReachedThenNext(ds: Definitions, data: seq<byte>, start: nat, n: nat)
    requires start <= |data| && n > 0 && Reached(ds, data, start, n)
    ensures !Stops(ds, data, start) && Reached(ds, data, ReadFrame(ds, data, start).next, n - 1)
  {
    hide ReadFrame, Stops;
    var next := ReadFrame(ds, data, start).next;
    assert !Stops(ds, data, Visited(ds, data, start, 0));
    forall k | 0 <= k < n - 1 ensures !Stops(ds, data, Visited(ds, data, next, k)) {
      assert !Stops(ds, data, Visited(ds, data, start, k + 1));
    }
  }

  lemma NextThenReached(ds: Definitions, data: seq<byte>, start: nat, n: nat)
    requires start <= |data| && n > 0
    requires !Stops(ds, data, start) && Reached(ds, data, ReadFrame(ds, data, start).next, n - 1)
    ensures Reached(ds, data, start, n)
  {
    hide ReadFrame, Stops;
    var next := ReadFrame(ds, data, start).next;
    forall k | 0 <= k < n ensures !Stops(ds, data, Visited(ds, data, start, k)) {
      if k > 0 {
        assert !Stops(ds, data, Visited(ds, data, next, k - 1));
      }
    }
  }

  /** The loop has not ended within its rounds iff all of them were reached and data is left. */
  lemma {:induction false} StillReading(ds: Definitions, data: seq<byte>, start: nat, rounds: nat)
    requires start <= |data|
    ensures !ReadFrames(ds, data, start, rounds).ended
      <==> Reached(ds, data, start, rounds) && Visited(ds, data, start, rounds) < |data|
    decreases rounds
  {
    hide ReadFrame, ReadFrames, Reached;
    ReadFramesOnce(ds, data, start, rounds);
    if rounds > 0 {
      var next := ReadFrame(ds, data, start).next;
      StillReading(ds, data, next, rounds - 1);
      if Reached(ds, data, start, rounds) {
        ReachedThenNext(ds, data, start, rounds);
      } else if !Stops(ds, data, start) && Reached(ds, data, next, rounds - 1) {
        NextThenReached(ds, data, start, rounds);
      }
    } else {
      NothingToReach(ds, data, start);
    }
  }

  lemma NothingToReach(ds: Definitions, data: seq<byte>, start: nat)
    requires start <= |data|
    ensures Reached(ds, data, start, 0)
  {
  }

  // ---------- going round ----------

  lemma {:induction false} SameFromThere(ds: Definitions, data: seq<byte>, start: nat, i: nat, j: nat, m: nat)
    requires start <= |data| && Visited(ds, data, start, i) == Visited(ds, data, start, j)
    ensures Visited(ds, data, start, i + m) == Visited(ds, data, start, j + m)
    decreases m
  {
    hide Visited, ReadFrame;
    if m > 0 {
      SameFromThere(ds, data, start, i, j, m - 1);
      VisitedNext(ds, data, start, i + m - 1);
      VisitedNext(ds, data, start, j + m - 1);
    }
  }

  lemma {:induction false} GoesRound(ds: Definitions, data: seq<byte>, start: nat, i: nat, j: nat, n: nat)
    requires start <= |data| && Repeats(ds, data, start, i, j)
    ensures !Stops(ds, data, Visited(ds, data, start, n))
    decreases n
  {
    hide Visited, Stops;
    if n < j {
      assert Reached(ds, data, start, j);
    } else {
      SameFromThere(ds, data, start, i, j, n - j);
      GoesRound(ds, data, start, i, j, n - (j - i));
    }
  }

  /** A start visited twice is visited for ever: every number of rounds is used up, with a frame in each. */
  lemma {:induction false} RepeatNeverEnds(ds: Definitions, data: seq<byte>, start: nat, i: nat, j: nat, rounds: nat)
    requires start <= |data| && Repeats(ds, data, start, i, j)
    ensures !ReadFrames(ds, data, start, rounds).ended
  {
    StillReading(ds, data, start, rounds);
    forall n: nat ensures !Stops(ds, data, Visited(ds, data, start, n)) {
      GoesRound(ds, data, start, i, j, n);
    }
  }

  lemma {:induction false} Pigeonhole(places: seq<nat>, bound: nat) returns (i: nat, j: nat)
    requires |places| > bound && forall p <- places :: p < bound
    ensures i < j < |places| && places[i] == places[j]
    decreases bound
  {
    assert places[0] in places;
    if k :| 0 <= k < |places| && places[k] == bound - 1 {
      var others := places[..k] + places[k + 1..];
      if l :| 0 <= l < |others| && others[l] == bound - 1 {
        var at := if l < k then l else l + 1;
        i, j := if at < k then at else k, if at < k then k else at;
      } else {
        forall p <- others ensures p < bound - 1 {
          var m :| 0 <= m < |others| && others[m] == p;
          assert p in places;
        }
        var x, y := Pigeonhole(others, bound - 1);
        i, j := if x < k then x else x + 1, if y < k then y else y + 1;
      }
    } else {
      i, j := Pigeonhole(places, bound - 1);
    }
  }

  function Starts(ds: Definitions, data: seq<byte>, start: nat, count: nat): (s: seq<nat>)
    requires start <= |data|
    ensures |s| == count && forall k :: 0 <= k < count ==> s[k] == Visited(ds, data, start, k)
  {
    seq(count, k requires k >= 0 => Visited(ds, data, start, k))
  }

  /** As many rounds as there are bytes, and still going on: some start was visited twice. */
  lemma {:induction false} LongReadingRepeats(ds: Definitions, data: seq<byte>, start: nat) returns (i: nat, j: nat)
    requires start <= |data| && !ReadFrames(ds, data, start, |data|).ended
    ensures Repeats(ds, data, start, i, j)
  {
    hide ReadFrames, Visited;
    StillReading(ds, data, start, |data|);
    var starts := Starts(ds, data, start, |data| + 1);
    forall p <- starts ensures p < |data| {
      var k :| 0 <= k < |starts| && starts[k] == p;
      if k < |data| {
        assert !Stops(ds, data, Visited(ds, data, start, k));
      }
    }
    i, j := Pigeonhole(starts, |data|);
  }

  /** Exactly when the loop ends: no start is visited twice; and then it ends within as many rounds as there are
      bytes. */
  lemma {:induction false} ReadingEndsIffNothingRepeats(ds: Definitions, data: seq<byte>, start: nat)
    requires start <= |data|
    ensures (exists n :: ReadFrames(ds, data, start, n).ended) <==> ReadFrames(ds, data, start, |data|).ended
    ensures ReadFrames(ds, data, start, |data|).ended <==> forall i, j :: !Repeats(ds, data, start, i, j)
  {
    hide ReadFrames, Repeats;
    if !ReadFrames(ds, data, start, |data|).ended {
      var i, j := LongReadingRepeats(ds, data, start);
      forall n: nat ensures !ReadFrames(ds, data, start, n).ended {
        RepeatNeverEnds(ds, data, start, i, j, n);
      }
    } else {
      forall i: nat, j: nat ensures !Repeats(ds, data, start, i, j) {
        if Repeats(ds, data, start, i, j) {
          RepeatNeverEnds(ds, data, start, i, j, |data|);
        }
      }
    }
  }

  // ---------- where a length leads ----------

  /** The length at p leads to a start behind p: it stays under 2^31, or it is one of the last three 32-bit
      numbers, which wrap to 1, 2 or 3 bytes behind. */
  predicate LeadsOn(p: nat, length: uint32) {
    p + length + 4 < 0x8000_0000 || length > 0xFFFF_FFFC
  }

  lemma WhereLengthLeads(data: seq<byte>, p: nat, length: uint32)
    requires p + 4 <= |data| < 0x8000_0000
    ensures p < NextStart(data, p, length) <==> LeadsOn(p, length)
    ensures NextStart(data, p, length) == p <==> length == 0xFFFF_FFFC || (p == 0 && !LeadsOn(p, length))
    ensures 0x8000_0000 <= p + length + 4 <= 0x1_0000_0000 ==> NextStart(data, p, length) == 0
  {
  }

  lemma DecodedHasLength(ds: Definitions, data: seq<byte>, p: nat)
    requires p <= |data| && ReadFrame(ds, data, p).frame.Some?
    ensures p + 4 <= |data| && ReadFrame(ds, data, p).next == NextStart(data, p, LengthAt(data, p))
  {
    hide ReadBody, NextStart, LengthAt;
  }

  /** Round k decodes a frame, so there is a length at its start. */
  ghost predicate DecodedIn(ds: Definitions, data: seq<byte>, start: nat, k: nat)
    requires start <= |data|
  {
    Reached(ds, data, start, k + 1) && Visited(ds, data, start, k) + 4 <= |data|
  }

  /** The lengths of the decoded frames all lead on. Only these lengths matter: other bytes may be anything. */
  ghost predicate AllLeadOn(ds: Definitions, data: seq<byte>, start: nat)
    requires start <= |data|
  {
    forall k :: k >= 0 && DecodedIn(ds, data, start, k)
      ==> LeadsOn(Visited(ds, data, start, k), LengthAt(data, Visited(ds, data, start, k)))
  }

  /** While they do, every round gets at least one byte further. */
  lemma {:induction false} GetsFurther(ds: Definitions, data: seq<byte>, start: nat, n: nat)
    requires start <= |data| < 0x8000_0000 && AllLeadOn(ds, data, start) && Reached(ds, data, start, n)
    ensures Visited(ds, data, start, n) >= start + n
    decreases n
  {
    hide Visited, ReadFrame, LeadsOn, LengthAt, NextStart, Reached;
    if n > 0 {
      ReachedEarlier(ds, data, start, n);
      GetsFurther(ds, data, start, n - 1);
      var p := Visited(ds, data, start, n - 1);
      VisitedNext(ds, data, start, n - 1);
      DecodedHasLength(ds, data, p);
      assert DecodedIn(ds, data, start, n - 1);
      WhereLengthLeads(data, p, LengthAt(data, p));
    } else {
      VisitedFirst(ds, data, start);
    }
  }

  lemma ReachedEarlier(ds: Definitions, data: seq<byte>, start: nat, n: nat)
    requires start <= |data| && n > 0 && Reached(ds, data, start, n)
    ensures Reached(ds, data, start, n - 1) && !Stops(ds, data, Visited(ds, data, start, n - 1))
  {
  }

  lemma VisitedFirst(ds: Definitions, data: seq<byte>, start: nat)
    requires start <= |data|
    ensures Visited(ds, data, start, 0) == start
  {
  }

  /** When no length of a decoded frame reaches 2^31, or only one that wraps to behind its own start, the loop ends,
      within as many rounds as there are bytes left. */
  lemma {:induction false} ReadFramesEnds(ds: Definitions, data: seq<byte>, start: nat)
    requires start <= |data| < 0x8000_0000 && AllLeadOn(ds, data, start)
    ensures ReadFrames(ds, data, start, |data| - start).ended
  {
    hide ReadFrames, Visited, Stops, LeadsOn, LengthAt, Reached, AllLeadOn;
    StillReading(ds, data, start, |data| - start);
    if Reached(ds, data, start, |data| - start) {
      GetsFurther(ds, data, start, |data| - start);
    }
  }

  /** Otherwise it need not: a decoded frame whose length leads back to its own start, or, when reading began at 0, one
      whose length leads to 2^31 or further, up to 2^32, is read again and again. */
  lemma {:induction false} LeadingBackNeverEnds(ds: Definitions, data: seq<byte>, start: nat, k: nat, rounds: nat)
    requires start <= |data| < 0x8000_0000 && Reached(ds, data, start, k + 1)
    requires var p := Visited(ds, data, start, k);
      p + 4 <= |data| ==>
        var length := LengthAt(data, p);
        length == 0xFFFF_FFFC || (start == 0 && 0x8000_0000 <= p + length + 4 <= 0x1_0000_0000)
    ensures !ReadFrames(ds, data, start, rounds).ended
  {
    hide ReadFrames, ReadFrame, LengthAt, NextStart;
    var p := Visited(ds, data, start, k);
    assert !Stops(ds, data, p);
    DecodedHasLength(ds, data, p);
    WhereLengthLeads(data, p, LengthAt(data, p));
    VisitedNext(ds, data, start, k);
    if LengthAt(data, p) == 0xFFFF_FFFC {
      assert Repeats(ds, data, start, k, k + 1);
      RepeatNeverEnds(ds, data, start, k, k + 1, rounds);
    } else {
      assert Repeats(ds, data, start, 0, k + 1);
      RepeatNeverEnds(ds, data, start, 0, k + 1, rounds);
    }
  }

  /** A length that wraps to a place behind the first byte but before its own frame. What the reader finds there may be
      anything, as it need not be the start of a frame. */
  predicate IntoTheMiddle(p: nat, length: uint32) {
    p + length + 4 > 0x1_0000_0000 && length < 0xFFFF_FFFC
  }

  ghost predicate NoneIntoTheMiddle(ds: Definitions, data: seq<byte>) {
    forall k :: k >= 0 && DecodedIn(ds, data, 0, k)
      ==> !IntoTheMiddle(Visited(ds, data, 0, k), LengthAt(data, Visited(ds, data, 0, k)))
  }

  /** Exactly when reading from the first byte ends, by the lengths alone, unless one leads into the middle: when all of
      them lead on. */
  lemma {:induction false} ReadingEndsIffAllLeadOn(ds: Definitions, data: seq<byte>)
    requires |data| < 0x8000_0000 && NoneIntoTheMiddle(ds, data)
    ensures (exists n :: ReadFrames(ds, data, 0, n).ended) <==> AllLeadOn(ds, data, 0)
  {
    hide ReadFrames, ReadFrame, Visited, LengthAt, Reached;
    if AllLeadOn(ds, data, 0) {
      ReadFramesEnds(ds, data, 0);
    } else {
      var k :| k >= 0 && DecodedIn(ds, data, 0, k)
        && !LeadsOn(Visited(ds, data, 0, k), LengthAt(data, Visited(ds, data, 0, k)));
      forall n: nat ensures !ReadFrames(ds, data, 0, n).ended {
        LeadingBackNeverEnds(ds, data, 0, k, n);
      }
    }
  }

  /** It does happen: a known name behind a length of 2^32 - 4. */
  lemma {:induction false} WrappingLengthNeverEnds(ds: Definitions, name: seq<byte>, rounds: nat)
    requires 0 !in name && |name| < 1000 && ds.ByKey(name) == Some(FrameDefinition(name, false, []))
    ensures !ReadFrames(ds, Le32(0xFFFF_FFFC) + name + [0], 0, rounds).ended
  {
    hide ReadFrames, ReadFrame;
    var f := Frame(FrameDefinition(name, false, []), 1, []);
    var data := Le32(0xFFFF_FFFC) + name + [0];
    assert WriteBody(f) == name + [0] && WriteBody(f) + [] == WriteBody(f);
    BodyRoundTrip(ds, f, []);
    assert data == [] + (Le32(0xFFFF_FFFC) + WriteBody(f));
    ReadFrameAt(ds, [], 0xFFFF_FFFC, WriteBody(f));
    LengthInPlace([], 0xFFFF_FFFC, WriteBody(f));
    assert Visited(ds, data, 0, 0) == 0;
    LeadingBackNeverEnds(ds, data, 0, 0, rounds);
  }
}
