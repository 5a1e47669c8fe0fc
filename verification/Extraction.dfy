/** Taking packets off a growing byte buffer, for any packet format: if a format decides on a prefix as it would on the
    whole, then how the stream is cut into chunks does not matter. */
module Extraction {
  import opened Bytes

  /** What one attempt finds: a packet and the bytes after it, or nothing yet, with the bytes kept and a reason. */
  datatype Attempt<+P> = Extracted(packet: P, rest: seq<byte>) | Waiting(rest: seq<byte>, reason: nat)

  type Extractor<!P> = seq<byte> -> Attempt<P>

  /** More bytes never change a packet that was found, and dropping what an attempt drops is safe. */
  ghost predicate PrefixStableAt<P>(ex: Extractor<P>, a: seq<byte>, b: seq<byte>) {
    match ex(a)
    case Extracted(p, rest) => |rest| < |a| && ex(a + b) == Extracted(p, rest + b)
    case Waiting(rest, _) => |rest| <= |a| && ex(a + b) == ex(rest + b)
  }

  ghost predicate PrefixStable<P>(ex: Extractor<P>) {
    forall a, b :: PrefixStableAt(ex, a, b)
  }

  datatype Found<+P> = Found(packets: seq<P>, rest: seq<byte>)

  /** All packets of a buffer, and what stays in it. */
  function ExtractAll<P>(ex: Extractor<P>, data: seq<byte>): Found<P>
    decreases |data|
  {
    match ex(data)
    case Waiting(rest, _) => Found([], rest)
    case Extracted(p, rest) =>
      if |rest| < |data| then
        var more := ExtractAll(ex, rest);
        Found([p] + more.packets, more.rest)
      else Found([p], rest)
  }

  /** Chunks arrive one after the other; after each, everything that can be extracted is. */
  function Feed<P>(ex: Extractor<P>, before: Found<P>, chunks: seq<seq<byte>>): Found<P>
    decreases |chunks|
  {
    if chunks == [] then before
    else
      var now := ExtractAll(ex, before.rest + chunks[0]);
      Feed(ex, Found(before.packets + now.packets, now.rest), chunks[1..])
  }

  /** Extracting early and going on with the leftover is extracting late. */
  lemma {:induction false} ExtractAllInTwo<P>(ex: Extractor<P>, a: seq<byte>, b: seq<byte>)
    requires PrefixStable(ex)
    ensures var first := ExtractAll(ex, a);
      var second := ExtractAll(ex, first.rest + b);
      ExtractAll(ex, a + b) == Found(first.packets + second.packets, second.rest)
    decreases |a|
  {
    assert PrefixStableAt(ex, a, b);
    match ex(a)
    case Waiting(rest, _) =>
      SameAttemptSameFound(ex, a + b, rest + b);
    case Extracted(p, rest) =>
      ExtractAllInTwo(ex, rest, b);
      var second := ExtractAll(ex, ExtractAll(ex, rest).rest + b);
      assert [p] + (ExtractAll(ex, rest).packets + second.packets)
          == [p] + ExtractAll(ex, rest).packets + second.packets;
  }

  lemma SameAttemptSameFound<P>(ex: Extractor<P>, a: seq<byte>, b: seq<byte>)
    requires PrefixStable(ex) && ex(a) == ex(b)
    ensures ExtractAll(ex, a) == ExtractAll(ex, b)
  {
    assert PrefixStableAt(ex, a, []);
    assert PrefixStableAt(ex, b, []);
  }

  lemma {:induction false} FeedIsExtractAll<P>(ex: Extractor<P>, before: Found<P>, chunks: seq<seq<byte>>)
    requires PrefixStable(ex) && ExtractAll(ex, before.rest) == Found([], before.rest)
    ensures var all := ExtractAll(ex, before.rest + Flatten(chunks));
      Feed(ex, before, chunks) == Found(before.packets + all.packets, all.rest)
    decreases |chunks|
  {
    if chunks == [] {
      assert before.rest + Flatten(chunks) == before.rest;
      assert before.packets + [] == before.packets;
    } else {
      var now := ExtractAll(ex, before.rest + chunks[0]);
      LeftoverHoldsNothing(ex, before.rest + chunks[0]);
      FeedIsExtractAll(ex, Found(before.packets + now.packets, now.rest), chunks[1..]);
      ExtractAllInTwo(ex, before.rest + chunks[0], Flatten(chunks[1..]));
      assert before.rest + chunks[0] + Flatten(chunks[1..]) == before.rest + Flatten(chunks);
      var later := ExtractAll(ex, now.rest + Flatten(chunks[1..]));
      assert before.packets + now.packets + later.packets == before.packets + (now.packets + later.packets);
    }
  }

  lemma {:induction false} LeftoverHoldsNothing<P>(ex: Extractor<P>, data: seq<byte>)
    requires PrefixStable(ex)
    ensures var rest := ExtractAll(ex, data).rest; ExtractAll(ex, rest) == Found([], rest)
    decreases |data|
  {
    assert PrefixStableAt(ex, data, []);
    match ex(data)
    case Waiting(rest, _) =>
      assert data + [] == data && rest + [] == rest;
    case Extracted(_, rest) =>
      LeftoverHoldsNothing(ex, rest);
  }

  /** Segmentation independence: any bytes, garbage included, in any chunks give the packets and the leftover of the
      whole. */
  lemma {:induction false} SegmentationIndependence<P>(ex: Extractor<P>, chunks: seq<seq<byte>>)
    requires PrefixStable(ex)
    ensures Feed(ex, ExtractAll(ex, []), chunks) == ExtractAll(ex, Flatten(chunks))
  {
    var start := ExtractAll(ex, []);
    assert PrefixStableAt(ex, [], []);
    LeftoverHoldsNothing(ex, []);
    assert start == Found([], []);
    FeedIsExtractAll(ex, start, chunks);
    assert [] + Flatten(chunks) == Flatten(chunks);
  }

  // ---------- streams of printed packets ----------

  /** A packet is taken off as it was put on, whatever follows, and not before its last byte is there. */
  ghost predicate ReadsBack<P>(ex: Extractor<P>, text: seq<byte>, p: P) {
    && text != []
    && (forall b: seq<byte> :: ex(text + b) == Extracted(p, b))
    && (forall n :: 0 <= n < |text| ==> ex(text[..n]).Waiting? && ex(text[..n]).rest == text[..n])
  }

  ghost predicate AllReadBack<P>(ex: Extractor<P>, texts: seq<seq<byte>>, sent: seq<P>) {
    |texts| == |sent| && forall i :: 0 <= i < |sent| ==> ReadsBack(ex, texts[i], sent[i])
  }

  /** How many of the texts lie within the first n bytes of their concatenation. */
  function Whole(texts: seq<seq<byte>>, n: nat): (k: nat)
    ensures k <= |texts|
  {
    if texts == [] || n < |texts[0]| then 0 else 1 + Whole(texts[1..], n - |texts[0]|)
  }

  /** Of the first n bytes, exactly the packets that are whole are extracted, and the bytes after them stay. */
  ghost predicate ExtractsWhole<P>(ex: Extractor<P>, texts: seq<seq<byte>>, sent: seq<P>, n: nat)
    requires |texts| == |sent| && n <= |Flatten(texts)|
  {
    var k := Whole(texts, n);
    && |Flatten(texts[..k])| <= n && (k < |texts| ==> n < |Flatten(texts[..k + 1])|)
    && ExtractAll(ex, Flatten(texts)[..n]) == Found(sent[..k], Flatten(texts)[|Flatten(texts[..k])|..n])
  }

  lemma FlattenFront(texts: seq<seq<byte>>, k: nat)
    requires k < |texts|
    ensures Flatten(texts[..k + 1]) == texts[0] + Flatten(texts[1..][..k])
  {
    assert texts[..k + 1] == [texts[0]] + texts[1..][..k];
  }

  lemma FirstNotWhole<P>(ex: Extractor<P>, texts: seq<seq<byte>>, sent: seq<P>, n: nat)
    requires |texts| == |sent| > 0 && n < |texts[0]| && ReadsBack(ex, texts[0], sent[0])
    ensures n <= |Flatten(texts)| && ExtractsWhole(ex, texts, sent, n)
  {
    assert Flatten(texts)[..n] == texts[0][..n];
    FlattenFront(texts, 0);
    assert texts[1..][..0] == [] && texts[..0] == [];
  }

  lemma ExtractFirst<P>(ex: Extractor<P>, text: seq<byte>, p: P, rest: seq<byte>)
    requires ReadsBack(ex, text, p)
    ensures var more := ExtractAll(ex, rest); ExtractAll(ex, text + rest) == Found([p] + more.packets, more.rest)
  {
    assert ex(text + rest) == Extracted(p, rest);
  }

  lemma FirstWhole<P>(ex: Extractor<P>, texts: seq<seq<byte>>, sent: seq<P>, n: nat)
    requires |texts| == |sent| > 0 && |texts[0]| <= n <= |Flatten(texts)| && ReadsBack(ex, texts[0], sent[0])
    requires ExtractsWhole(ex, texts[1..], sent[1..], n - |texts[0]|)
    ensures ExtractsWhole(ex, texts, sent, n)
  {
    hide ExtractAll, Whole, ReadsBack, Flatten;
    var (stream, tail, m) := (Flatten(texts), Flatten(texts[1..]), n - |texts[0]|);
    var k := Whole(texts[1..], m);
    StreamCons(texts, n);
    ExtractFirst(ex, texts[0], sent[0], tail[..m]);
    FlattenFront(texts, k);
    if k < |texts[1..]| {
      FlattenFront(texts, k + 1);
    }
    var done := |Flatten(texts[1..][..k])|;
    assert Whole(texts, n) == k + 1 by { WholeAfterFirst(texts, n); }
    assert stream[..n] == texts[0] + tail[..m] && stream[|texts[0]| + done..n] == tail[done..m] by {
      StreamCons(texts, n);
    }
    assert sent[..k + 1] == [sent[0]] + sent[1..][..k];
  }

  lemma WholeAfterFirst(texts: seq<seq<byte>>, n: nat)
    requires texts != [] && n >= |texts[0]|
    ensures Whole(texts, n) == Whole(texts[1..], n - |texts[0]|) + 1
  {
  }

  lemma StreamCons(texts: seq<seq<byte>>, n: nat)
    requires texts != [] && |texts[0]| <= n <= |Flatten(texts)|
    ensures var (tail, m) := (Flatten(texts[1..]), n - |texts[0]|);
      && m <= |tail| && Flatten(texts)[..n] == texts[0] + tail[..m]
      && forall k :: 0 <= k <= m ==> Flatten(texts)[|texts[0]| + k..n] == tail[k..m]
  {
  }

  /** From any number of bytes of a stream of printed packets, exactly the packets that are whole are extracted, and the
      bytes after them stay. */
  lemma {:induction false} PrefixOfStream<P>(ex: Extractor<P>, texts: seq<seq<byte>>, sent: seq<P>, n: nat)
    requires AllReadBack(ex, texts, sent) && n <= |Flatten(texts)|
    requires ex([]).Waiting? && ex([]).rest == []
    ensures ExtractsWhole(ex, texts, sent, n)
    decreases |texts|
  {
    if texts == [] {
      assert Flatten(texts)[..n] == [];
    } else if n < |texts[0]| {
      FirstNotWhole(ex, texts, sent, n);
    } else {
      StreamCons(texts, n);
      assert forall i :: 0 <= i < |sent[1..]| ==> texts[1..][i] == texts[i + 1] && sent[1..][i] == sent[i + 1];
      PrefixOfStream(ex, texts[1..], sent[1..], n - |texts[0]|);
      FirstWhole(ex, texts, sent, n);
    }
  }

  /** All bytes give all packets. */
  lemma {:induction false} WholeStream(texts: seq<seq<byte>>)
    ensures Whole(texts, |Flatten(texts)|) == |texts|
  {
    if texts != [] {
      WholeStream(texts[1..]);
    }
  }
}
