/** The stateful reassembler: `TcpStreamReassembler` with its loops, each method proved against
    the specification functions of `TcpReassembly`. */
module TcpReassembler {
  import opened Machine
  import opened Packet
  import opened TcpReassembly
  import opened TcpAccounting

  const BYTES_PER_MIB: nat := 1024 * 1024

  /** Bytes one stream holds, summed segment by segment. */
  method StateBytes(s: Stream) returns (bytes: nat)
    ensures bytes == StreamBytes(s)
  {
    bytes := 0;
    for i := 0 to 2
      invariant bytes == (if i > 0 then DirectionBytes(s.first) else 0) + (if i > 1
            then DirectionBytes(s.second) else 0)
    {
      var d := s.At(i);
      var before := bytes;
      bytes := bytes + |d.contiguous|;
      for j := 0 to |d.pending|
        invariant bytes == before + |d.contiguous| + PendingBytes(d.pending[..j])
      {
        PendingBytesConcat(d.pending[..j], [d.pending[j]]);
        assert d.pending[..j + 1] == d.pending[..j] + [d.pending[j]];
        bytes := bytes + |d.pending[j].payload|;
      }
      assert d.pending[..|d.pending|] == d.pending;
    }
  }

  /** One turn of the drain: `i` is the first candidate, or the queue length when there is none. */
  lemma DrainStep(limit: nat, d: Direction, i: nat)
    requires i <= |d.pending|
    requires forall j :: 0 <= j < i ==> d.pending[j].sequence != d.next
    requires i < |d.pending| ==> d.pending[i].sequence == d.next
    ensures Drain(limit, d) ==
            if i == |d.pending| then (d, Ready)
            else if |d.contiguous| + |d.pending[i].payload| > limit then (d, ResourceLimit)
            else Drain(limit, Absorb(d, i))
  {
    assert FirstAt(d.pending, d.next) == i;
  }

  class TcpStreamReassembler {
    const config: Config
    var streams: map<StreamKey, Stream>
    var buffered: nat

    ghost function Contents(): State
      reads this
    {
      State(streams, buffered)
    }

    /** The byte counter is exact and every cap holds. */
    ghost predicate Valid()
      reads this
    {
      Accounted(config, Contents())
    }

    constructor (enabled: bool, idleTimeoutSec: U32, tscHz: U64, maxStreams: U32, maxBytesPerDirection: U32,
                 maxOutOfOrder: U16, memoryBudgetMb: U32, dropConflicting: bool)
      ensures Valid() && Contents() == State(map[], 0)
      ensures config == Config(enabled, idleTimeoutSec * tscHz % TWO_64, maxStreams, maxBytesPerDirection,
                               maxOutOfOrder, memoryBudgetMb * BYTES_PER_MIB, dropConflicting)
    {
      config := Config(enabled, idleTimeoutSec * tscHz % TWO_64, maxStreams, maxBytesPerDirection,
      maxOutOfOrder, memoryBudgetMb * BYTES_PER_MIB, dropConflicting);
      streams := map[];
      buffered := 0;
    }

    method QueuePending(d: Direction, sequence: U32, payload: Bytes) returns (d': Direction, status: Status)
      modifies this`buffered
      ensures Added(d', buffered, status) == Queue(config, old(buffered), d, sequence, payload)
    {
      d' := d;
      if |d.pending| >= config.maxOutOfOrder || !HasCapacity(config, buffered, |payload|) {
        return d, ResourceLimit;
      }
      for i := 0 to |d.pending|
        invariant forall j :: 0 <= j < i ==> d.pending[j].sequence != sequence
      {
        if d.pending[i].sequence == sequence {
          return d, if d.pending[i].payload == payload then Waiting else ConflictingOverlap;
        }
      }
      d' := d.(pending := d.pending + [Pending(sequence, payload)]);
      buffered := buffered + |payload|;
      status := Waiting;
    }

    method AppendAndDrain(d: Direction, sequence: U32, payload: Bytes) returns (d': Direction, status: Status)
      modifies this`buffered
      ensures Added(d', buffered, status) == Append(config, old(buffered), d, sequence, payload)
    {
      if !HasCapacity(config, buffered, |payload|) || |d.contiguous| + |payload| > config.maxBytesPerDirection {
        return d, ResourceLimit;
      }
      d' := d.(contiguous := d.contiguous + payload);
      buffered := buffered + |payload|;
      d' := d'.(next := Add32(sequence, |payload|));
      ghost var goal := Drain(config.maxBytesPerDirection, d');
      assert Append(config, old(buffered), d, sequence, payload) == Added(goal.0, buffered, goal.1);
      hide Append, Drain;

      var progressed := true;
      while progressed
        invariant Drain(config.maxBytesPerDirection, d') == goal
        invariant Append(config, old(buffered), d, sequence, payload) == Added(goal.0, buffered, goal.1)
        invariant !progressed ==> forall j :: 0 <= j < |d'.pending| ==> d'.pending[j].sequence != d'.next
        decreases |d'.pending|, progressed
      {
        progressed := false;
        var i := 0;
        ghost var queued := |d'.pending|;
        while i < |d'.pending| && !progressed
          invariant 0 <= i <= |d'.pending|
          invariant Drain(config.maxBytesPerDirection, d') == goal
          invariant Append(config, old(buffered), d, sequence, payload) == Added(goal.0, buffered, goal.1)
          invariant !progressed ==> forall j :: 0 <= j < i ==> d'.pending[j].sequence != d'.next
          invariant |d'.pending| + (if progressed then 1 else 0) == queued
          decreases !progressed, |d'.pending| - i
        {
          if d'.pending[i].sequence != d'.next {
            i := i + 1;
            continue;
          }
          DrainStep(config.maxBytesPerDirection, d', i);
          if |d'.contiguous| + |d'.pending[i].payload| > config.maxBytesPerDirection {
            return d', ResourceLimit;
          }
          d' := Absorb(d', i);
          progressed := true;
        }
      }
      DrainStep(config.maxBytesPerDirection, d', |d'.pending|);
      status := Ready;
    }

    method AddSegment(d: Direction, sequence: U32, payload: Bytes) returns (d': Direction, status: Status)
      requires |payload| < TWO_31
      modifies this`buffered
      ensures Added(d', buffered, status) == Add(config, old(buffered), d, sequence, payload)
    {
      if payload == [] {
        return d, Waiting;
      }
      d' := d;
      if !d'.baseKnown {
        if !IsStreamStart(payload) {
          d', status := QueuePending(d', sequence, payload);
          return;
        }
        d' := d'.(baseKnown := true, base := sequence, next := sequence);
      }
      var distance := SequenceDistance(sequence, d'.next);
      if distance == 0 {
        d', status := AppendAndDrain(d', sequence, payload);
        return;
      }
      if distance > 0 {
        d', status := QueuePending(d', sequence, payload);
        return;
      }
      var overlap := Overlap(config, d', sequence, payload);
      if overlap == ConflictingOverlap {
        return d', overlap;
      }
      var endSequence := Add32(sequence, |payload|);
      if SequenceDistance(endSequence, d'.next) <= 0 {
        return d', Waiting;
      }
      TrimIsShorterThanPayload(sequence, d'.next, |payload|);
      var trim := -distance;
      d', status := AppendAndDrain(d', d'.next, payload[trim..]);
    }

    /** Subtracts what the stream holds, saturating at zero; exact whenever the stream's bytes are accounted for. */
    method AccountRemove(s: Stream)
      modifies this`buffered
      ensures buffered == old(buffered) - Min(old(buffered), StreamBytes(s))
      ensures StreamBytes(s) <= old(buffered) ==> buffered + StreamBytes(s) == old(buffered)
    {
      var bytes := StateBytes(s);
      buffered := buffered - Min(buffered, bytes);
    }

    /** Account for and forget one stream. */
    method Erase(key: StreamKey)
      requires Valid() && key in streams
      modifies this
      ensures Valid()
      ensures Contents() == Erased(old(Contents()), key)
    {
      hide StreamOk, StreamBytes;
      ghost var before := Contents();
      EraseAccounted(config, before, key);
      AccountRemove(streams[key]);
      streams := streams - {key};
      assert Contents() == Erased(before, key);
    }

    method PurgeExpired(now: U64)
      requires Valid()
      modifies this
      ensures Valid()
      ensures Contents() == Purged(config, old(Contents()), now)
    {
      hide StreamOk;
      ghost var live := Live(config, streams, now);
      PurgedAccounted(config, Contents(), now);
      if config.timeoutCycles == 0 {
        assert live == streams;
        return;
      }
      var unvisited := streams.Keys;
      while unvisited != {}
        invariant unvisited <= streams.Keys
        invariant Valid()
        invariant Live(config, streams, now) == live
        invariant forall k | k in streams && k !in unvisited :: !Expired(config, streams[k], now)
        decreases |unvisited|
      {
        var k :| k in unvisited;
        if Sub64(now, streams[k].lastSeen) > config.timeoutCycles {
          LiveWithoutExpired(config, streams, k, now);
          Erase(k);
        }
        unvisited := unvisited - {k};
      }
      assert streams == live;
    }

    method Insert(p: Segment) returns (r: Result)
      requires Valid() && |p.payload| < TWO_31
      modifies this
      ensures Valid()
      ensures (Contents(), r) == Inserted(config, old(Contents()), p)
    {
      InsertedAccounted(config, Contents(), p);
      if !config.enabled || p.meta.protocol != Tcp {
        return Result(Disabled, []);
      }
      PurgeExpired(p.now);
      r := Deliver(p);
    }

    /** The part of `Insert` after purging: find or create the stream, add the segment, and drop
        the whole stream when the segment cannot be accepted. */
    method Deliver(p: Segment) returns (r: Result)
      requires Valid() && |p.payload| < TWO_31
      modifies this
      ensures (Contents(), r) == Delivered(config, old(Contents()), p)
    {
      hide StreamOk, TotalBytes, Add, KeyOf, DirectionOf, DataSequence, StreamBytes, DirectionBytes, PendingBytes;
      var key, i := KeyOf(p.meta), DirectionOf(p.meta);
      ghost var live := Contents();
      if key !in streams {
        if |streams| >= config.maxStreams {
          return Result(ResourceLimit, []);
        }
        streams := streams[key := Stream(EMPTY_DIRECTION, EMPTY_DIRECTION, p.now)];
      }
      var state := streams[key].(lastSeen := p.now);
      var d, status := AddSegment(state.At(i), DataSequence(p.meta), p.payload);
      state := state.With(i, d);
      streams := streams[key := state];
      ghost var added := AddedTo(config, live, p);
      assert Added(d, buffered, status) == added;
      assert state == Stored(StreamFor(live, p), p, d);
      if status == ConflictingOverlap || status == ResourceLimit {
        DiscardIsExact(config, live, p);
        AccountRemove(state);
        streams := streams - {key};
        assert streams == live.streams - {key};
        assert Contents() == Erased(live, key);
        return Result(status, []);
      }
      assert streams == live.streams[key := state];
      r := Result(status, streams[key].At(i).contiguous);
    }
  }
}
