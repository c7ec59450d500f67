/**
 Reading a block's events back from the segments a domain chain stores them in.

 `segments` holds, per stored segment, the events that decode.
 */
module Segments {

  /** The stored events of segments 0 to `n - 1`, in order; an absent segment adds nothing. */
  function Joined<E>(segments: map<nat, seq<E>>, n: nat): seq<E> {
    if n == 0 then []
    else Joined(segments, n - 1) + if n - 1 in segments then segments[n - 1] else []
  }

  function Truncated<E>(events: seq<E>, count: nat): seq<E> {
    if count < |events| then events[..count] else events
  }

  /**
   Reads segments 0 to `count / size` (the last may be absent, or hold old entries after the new ones)
   and keeps the first `count` events.
   */
  method EventsFromSegments<E>(segments: map<nat, seq<E>>, segmentSize: nat, eventCount: nat)
    returns (totalEvents: seq<E>)
    requires segmentSize > 0
    ensures totalEvents == Truncated(Joined(segments, eventCount / segmentSize + 1), eventCount)
    ensures forall events | |events| == eventCount && Holds(segments, segmentSize, events) :: totalEvents == events
    ensures forall events | |events| == eventCount && HoldsEach(segments, segmentSize, events) :: totalEvents == events
  {
    var maxSegment := eventCount / segmentSize;
    totalEvents := [];
    for segment := 0 to maxSegment + 1
      invariant totalEvents == Joined(segments, segment)
    {
      if segment in segments {
        totalEvents := totalEvents + segments[segment];
      }
    }
    if eventCount < |totalEvents| {
      totalEvents := totalEvents[..eventCount];
    }
    forall events | |events| == eventCount && Holds(segments, segmentSize, events)
      ensures totalEvents == events
    {
      SegmentsRoundTrip(segments, segmentSize, events);
    }
    forall events | |events| == eventCount && HoldsEach(segments, segmentSize, events)
      ensures totalEvents == events
    {
      EntriesHold(segments, segmentSize, events);
    }
  }

  /** Index of the first event of a segment. */
  function Start(size: nat, segment: nat): nat {
    size * segment
  }

  lemma LastStart(size: nat, count: nat)
    requires size > 0
    ensures Start(size, count / size) + count % size == count
  {
  }

  lemma StartStep(size: nat, count: nat, segment: nat)
    requires size > 0 && segment < count / size
    ensures Start(size, segment + 1) == Start(size, segment) + size <= count
  {
    var q := count / size;
    Distribute(size, segment, 1);
    Distribute(size, segment + 1, q - segment - 1);
    LastStart(size, count);
  }

  lemma Distribute(size: nat, a: nat, b: nat)
    ensures Start(size, a + b) == Start(size, a) + Start(size, b) >= Start(size, a)
  {
  }

  /** Segment `k` is full and holds exactly its events. */
  ghost predicate HoldsFull<E>(segments: map<nat, seq<E>>, size: nat, events: seq<E>, k: nat)
    requires size > 0 && k < |events| / size
  {
    StartStep(size, |events|, k);
    k in segments && segments[k] == events[Start(size, k)..Start(size, k + 1)]
  }

  /**
   The segments hold the block's events: full ones exactly, the last one first, then maybe old
   entries. A last segment with no event of this block may hold anything or be absent.
   */
  ghost predicate Holds<E>(segments: map<nat, seq<E>>, size: nat, events: seq<E>)
    requires size > 0
  {
    LastStart(size, |events|);
    && (forall k: nat | k < |events| / size :: HoldsFull(segments, size, events, k))
    && var last := events[Start(size, |events| / size)..];
       (last == [] || (|events| / size in segments && last <= segments[|events| / size]))
  }

  lemma {:induction false} FullSegmentsJoin<E>(segments: map<nat, seq<E>>, size: nat, events: seq<E>, n: nat)
    requires size > 0 && n <= |events| / size && Holds(segments, size, events)
    ensures Start(size, n) <= |events|
    ensures Joined(segments, n) == events[..Start(size, n)]
  {
    if n == 0 {
      assert Start(size, 0) == 0;
    } else {
      FullSegmentsJoin(segments, size, events, n - 1);
      StartStep(size, |events|, n - 1);
      assert HoldsFull(segments, size, events, n - 1);
      assert events[..Start(size, n)] == events[..Start(size, n - 1)] + events[Start(size, n - 1)..Start(size, n)];
    }
  }

  /** The last segment's events complete the block, and what follows them is cut off. */
  lemma LastSegmentJoins<E>(segments: map<nat, seq<E>>, events: seq<E>, n: nat, start: nat)
    requires start <= |events| && Joined(segments, n) == events[..start]
    requires events[start..] == [] || (n in segments && events[start..] <= segments[n])
    ensures Truncated(Joined(segments, n + 1), |events|) == events
  {
    assert events == events[..start] + events[start..];
  }

  /** Segment reassembly: what is read back is exactly the block's events, also at multiples of the size. */
  lemma {:induction false} SegmentsRoundTrip<E>(segments: map<nat, seq<E>>, size: nat, events: seq<E>)
    requires size > 0 && Holds(segments, size, events)
    ensures Truncated(Joined(segments, |events| / size + 1), |events|) == events
  {
    FullSegmentsJoin(segments, size, events, |events| / size);
    LastSegmentJoins(segments, events, |events| / size, Start(size, |events| / size));
  }

  /** The block's `i`-th event is entry `i % size` of segment `i / size`, and full segments hold no more. */
  ghost predicate HoldsEach<E>(segments: map<nat, seq<E>>, size: nat, events: seq<E>)
    requires size > 0
  {
    && (forall i | 0 <= i < |events| :: EntryAt(segments, size, events, i))
    && (forall k: nat | k < |events| / size :: k in segments && |segments[k]| == size)
  }

  ghost predicate EntryAt<E>(segments: map<nat, seq<E>>, size: nat, events: seq<E>, i: nat)
    requires size > 0 && i < |events|
  {
    i / size in segments && i % size < |segments[i / size]| && segments[i / size][i % size] == events[i]
  }

  lemma Position(size: nat, k: nat, j: nat)
    requires size > 0 && j < size
    ensures (Start(size, k) + j) / size == k && (Start(size, k) + j) % size == j
  {
    var i := Start(size, k) + j;
    var q := i / size;
    LastStart(size, i);
    if q < k {
      Distribute(size, q, 1);
      Distribute(size, q + 1, k - q - 1);
    } else if q > k {
      Distribute(size, k, 1);
      Distribute(size, k + 1, q - k - 1);
    }
  }

  lemma {:induction false} SegmentEntries<E>(segments: map<nat, seq<E>>, size: nat, events: seq<E>, k: nat, j: nat)
    requires size > 0 && HoldsEach(segments, size, events) && j < size && Start(size, k) + j < |events|
    ensures k in segments && j < |segments[k]| && segments[k][j] == events[Start(size, k) + j]
  {
    Position(size, k, j);
    assert EntryAt(segments, size, events, Start(size, k) + j);
  }

  lemma {:induction false} FullEntries<E>(segments: map<nat, seq<E>>, size: nat, events: seq<E>, k: nat)
    requires size > 0 && HoldsEach(segments, size, events) && k < |events| / size
    ensures HoldsFull(segments, size, events, k)
  {
    StartStep(size, |events|, k);
    var full := events[Start(size, k)..Start(size, k + 1)];
    forall j | 0 <= j < size
      ensures segments[k][j] == full[j]
    {
      SegmentEntries(segments, size, events, k, j);
    }
  }

  lemma {:induction false} LastEntries<E>(segments: map<nat, seq<E>>, size: nat, events: seq<E>, n: nat)
    requires size > 0 && HoldsEach(segments, size, events)
    requires Start(size, n) < |events| && |events| - Start(size, n) < size
    ensures n in segments && events[Start(size, n)..] <= segments[n]
  {
    var last := events[Start(size, n)..];
    forall j | 0 <= j < |last|
      ensures n in segments && j < |segments[n]| && segments[n][j] == last[j]
    {
      SegmentEntries(segments, size, events, n, j);
    }
    SegmentEntries(segments, size, events, n, |last| - 1);
  }

  /** Entry by entry, that is what it means for the segments to hold the events. */
  lemma {:induction false} EntriesHold<E>(segments: map<nat, seq<E>>, size: nat, events: seq<E>)
    requires size > 0 && HoldsEach(segments, size, events)
    ensures Holds(segments, size, events)
  {
    LastStart(size, |events|);
    forall k: nat | k < |events| / size
      ensures HoldsFull(segments, size, events, k)
    {
      FullEntries(segments, size, events, k);
    }
    if Start(size, |events| / size) < |events| {
      LastEntries(segments, size, events, |events| / size);
    }
  }

  /** The segments a chain writes for these events over older ones, whose entries may outlive them. */
  function Written<E>(older: map<nat, seq<E>>, size: nat, events: seq<E>): map<nat, seq<E>>
    requires size > 0
  {
    LastStart(size, |events|);
    var n := |events| / size;
    var last := events[Start(size, n)..];
    var full := map k: nat | 0 <= k < n :: FullSegment(size, events, k);
    var rest := if n in older && |last| <= |older[n]| then older[n][|last|..] else [];
    older + full + if last == [] then map[] else map[n := last + rest]
  }

  function FullSegment<E>(size: nat, events: seq<E>, k: nat): seq<E>
    requires size > 0 && k < |events| / size
  {
    StartStep(size, |events|, k);
    events[Start(size, k)..Start(size, k + 1)]
  }

  /** Writing a block's events and reading them back gives them, whatever was stored before. */
  lemma {:induction false} WrittenIsReadBack<E>(older: map<nat, seq<E>>, size: nat, events: seq<E>)
    requires size > 0
    ensures Truncated(Joined(Written(older, size, events), |events| / size + 1), |events|) == events
  {
    var segments := Written(older, size, events);
    LastStart(size, |events|);
    forall k: nat | k < |events| / size
      ensures HoldsFull(segments, size, events, k)
    {
      StartStep(size, |events|, k);
    }
    assert Holds(segments, size, events);
    SegmentsRoundTrip(segments, size, events);
  }
}
