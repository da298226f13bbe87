/** Memory accounting and drain correctness of the TCP reassembler. */
module TcpAccounting {
  import opened Machine
  import opened Packet
  import opened TcpReassembly

  // ---------------------------------------------------------------- sums over streams

  lemma PickOne(streams: map<StreamKey, Stream>) returns (k: StreamKey)
    requires streams != map[]
    ensures k in streams && TotalBytes(streams) == StreamBytes(streams[k]) + TotalBytes(streams - {k})
  {
    k :| k in streams && TotalBytes(streams) == StreamBytes(streams[k]) + TotalBytes(streams - {k});
  }

  lemma {:induction false} TotalWithout(streams: map<StreamKey, Stream>, key: StreamKey)
    requires key in streams
    ensures TotalBytes(streams) == StreamBytes(streams[key]) + TotalBytes(streams - {key})
    decreases |streams|
  {
    hide TotalBytes, StreamBytes;
    var k := PickOne(streams);
    if k != key {
      assert |streams - {k}| < |streams| && |streams - {key}| < |streams| by {
        assert (streams - {k}).Keys == streams.Keys - {k};
        assert (streams - {key}).Keys == streams.Keys - {key};
      }
      TotalWithout(streams - {k}, key);
      TotalWithout(streams - {key}, k);
      assert streams - {k} - {key} == streams - {key} - {k};
    }
  }

  lemma TotalAfterUpdate(streams: map<StreamKey, Stream>, key: StreamKey, s: Stream)
    ensures TotalBytes(streams[key := s]) == StreamBytes(s) + TotalBytes(streams - {key})
  {
    TotalWithout(streams[key := s], key);
    assert streams[key := s] - {key} == streams - {key};
  }

  lemma WithoutAbsent(streams: map<StreamKey, Stream>, key: StreamKey)
    requires key !in streams
    ensures streams - {key} == streams
  {}

  /** Dropping streams never increases the total. */
  lemma {:induction false} TotalOfPart(part: map<StreamKey, Stream>, whole: map<StreamKey, Stream>)
    requires forall k | k in part :: k in whole && whole[k] == part[k]
    ensures TotalBytes(part) <= TotalBytes(whole)
    ensures |part| <= |whole|
    decreases |part|
  {
    if part == map[] {
    } else {
      var k :| k in part;
      assert (part - {k}).Keys == part.Keys - {k};
      assert (whole - {k}).Keys == whole.Keys - {k};
      TotalWithout(part, k);
      TotalWithout(whole, k);
      TotalOfPart(part - {k}, whole - {k});
    }
  }

  // ---------------------------------------------------------------- sums over queued segments

  lemma {:induction false} PendingBytesConcat(a: seq<Pending>, b: seq<Pending>)
    ensures PendingBytes(a + b) == PendingBytes(a) + PendingBytes(b)
  {
    if a == [] {
      assert a + b == b;
    } else {
      assert (a + b)[1..] == a[1..] + b;
      PendingBytesConcat(a[1..], b);
    }
  }

  lemma AbsorbKeepsBytes(d: Direction, i: nat)
    requires i < |d.pending|
    ensures DirectionBytes(Absorb(d, i)) == DirectionBytes(d)
  {
    assert d.pending == d.pending[..i] + ([d.pending[i]] + d.pending[i + 1..]);
    PendingBytesConcat(d.pending[..i], [d.pending[i]] + d.pending[i + 1..]);
    PendingBytesConcat([d.pending[i]], d.pending[i + 1..]);
    PendingBytesConcat(d.pending[..i], d.pending[i + 1..]);
  }

  // ---------------------------------------------------------------- draining

  /** The part of the direction invariant that holds while the drain loop is running. */
  ghost predicate Draining(config: Config, d: Direction) {
    && d.baseKnown
    && |d.contiguous| <= config.maxBytesPerDirection
    && |d.pending| <= config.maxOutOfOrder
    && (forall p | p in d.pending :: p.payload != [])
    && DistinctSequences(d.pending)
    && d.next == Add32(d.base, |d.contiguous|)
  }

  lemma AbsorbKeepsDraining(config: Config, d: Direction, i: nat)
    requires Draining(config, d) && i < |d.pending|
    requires |d.contiguous| + |d.pending[i].payload| <= config.maxBytesPerDirection
    ensures Draining(config, Absorb(d, i))
  {
    AddAssociates(d.base, |d.contiguous|, |d.pending[i].payload|);
  }

  /** Draining moves bytes from the queue to the prefix and neither loses nor adds any; the
      prefix only grows; when it reports Ready nothing is left at the next expected byte, and when
      it gives up the segment that would overflow the cap is still queued. */
  lemma {:induction false} DrainCorrect(config: Config, d: Direction)
    requires Draining(config, d)
    ensures var (r, status) := Drain(config.maxBytesPerDirection, d);
            && DirectionBytes(r) == DirectionBytes(d)
            && Draining(config, r)
            && d.contiguous <= r.contiguous && r.base == d.base
            && (status == Ready || status == ResourceLimit)
            && (status == Ready <==> FirstAt(r.pending, r.next) == |r.pending|)
    decreases |d.pending|
  {
    var i := FirstAt(d.pending, d.next);
    if i < |d.pending| && |d.contiguous| + |d.pending[i].payload| <= config.maxBytesPerDirection {
      AbsorbKeepsBytes(d, i);
      AbsorbKeepsDraining(config, d, i);
      DrainCorrect(config, Absorb(d, i));
    }
  }

  lemma FirstAtUnique(pending: seq<Pending>, i: nat)
    requires i < |pending| && DistinctSequences(pending)
    ensures FirstAt(pending, pending[i].sequence) == i
  {}

  lemma FirstAtMember(pending: seq<Pending>, sequence: U32)
    ensures FirstAt(pending, sequence) < |pending| <==> exists p :: p in pending && p.sequence == sequence
  {
    if p :| p in pending && p.sequence == sequence {
      var i :| 0 <= i < |pending| && pending[i] == p;
    }
  }

  lemma AbsorbTakesOne(d: Direction, i: nat)
    requires i < |d.pending| && DistinctSequences(d.pending)
    ensures multiset(Absorb(d, i).pending) == multiset(d.pending) - multiset{d.pending[i]}
    ensures DistinctSequences(Absorb(d, i).pending)
  {
    hide Add32;
    RemoveOne(d.pending, i);
    var rest := Absorb(d, i).pending;
    assert forall k :: 0 <= k < |rest| ==> rest[k] == d.pending[if k < i then k else k + 1];
  }

  lemma RemoveOne(pending: seq<Pending>, i: nat)
    requires i < |pending|
    ensures multiset(pending[..i] + pending[i + 1..]) == multiset(pending) - multiset{pending[i]}
  {
    assert pending == pending[..i] + [pending[i]] + pending[i + 1..];
  }

  /** Two orders of one queue offer the same segment for a given sequence number. */
  lemma SameCandidate(a: seq<Pending>, b: seq<Pending>, sequence: U32)
    requires DistinctSequences(b) && multiset(a) == multiset(b)
    ensures |a| == |b|
    ensures var i, j := FirstAt(a, sequence), FirstAt(b, sequence);
            (i < |a| <==> j < |b|) && (i < |a| ==> a[i] == b[j])
  {
    assert |multiset(a)| == |multiset(b)|;
    assert forall p :: (p in a <==> p in multiset(a)) && (p in b <==> p in multiset(b));
    FirstAtMember(a, sequence);
    FirstAtMember(b, sequence);
    var i := FirstAt(a, sequence);
    if i < |a| {
      assert a[i] in b;
      var j :| 0 <= j < |b| && b[j] == a[i];
      FirstAtUnique(b, j);
    }
  }

  /** The drained result does not depend on the order in which segments were queued. */
  lemma {:induction false} DrainIgnoresQueueOrder(limit: nat, d: Direction, e: Direction)
    requires DistinctSequences(d.pending) && DistinctSequences(e.pending)
    requires multiset(d.pending) == multiset(e.pending)
    requires e == d.(pending := e.pending)
    ensures var (d', sd) := Drain(limit, d);
            var (e', se) := Drain(limit, e);
            && sd == se
            && e' == d'.(pending := e'.pending)
            && multiset(d'.pending) == multiset(e'.pending)
    decreases |d.pending|
  {
    SameCandidate(d.pending, e.pending, d.next);
    var i, j := FirstAt(d.pending, d.next), FirstAt(e.pending, e.next);
    if i < |d.pending| && |d.contiguous| + |d.pending[i].payload| <= limit {
      AbsorbTakesOne(d, i);
      AbsorbTakesOne(e, j);
      DrainIgnoresQueueOrder(limit, Absorb(d, i), Absorb(e, j));
    }
  }

  // ---------------------------------------------------------------- one segment

  lemma FirstAtAppend(pending: seq<Pending>, p: Pending, sequence: U32)
    requires FirstAt(pending, sequence) == |pending| && p.sequence != sequence
    ensures FirstAt(pending + [p], sequence) == |pending| + 1
  {}

  /** What handing over `size` bytes may do to a direction that held `held` bytes while
      `buffered` were held overall: the counter moves by exactly what the direction gained, stays
      within the budget and grows by at most the payload; unless the stream is about to be
      destroyed, the direction invariant survives. */
  ghost predicate FairStep(config: Config, buffered: nat, held: nat, size: nat, a: Added) {
    && (!a.status.Fatal() ==> DirectionOk(config, a.direction))
    && a.buffered <= config.budget
    && a.buffered - buffered == DirectionBytes(a.direction) - held
    && buffered <= a.buffered <= buffered + size
    && a.status != Disabled
  }

  lemma QueueCorrect(config: Config, buffered: nat, d: Direction, sequence: U32, payload: Bytes)
    requires DirectionOk(config, d) && payload != [] && buffered <= config.budget
    requires d.baseKnown ==> sequence != d.next
    ensures FairStep(config, buffered, DirectionBytes(d), |payload|, Queue(config, buffered, d, sequence, payload))
  {
    var p := Pending(sequence, payload);
    PendingBytesConcat(d.pending, [p]);
    if d.baseKnown {
      FirstAtAppend(d.pending, p, d.next);
    }
  }

  lemma AppendCorrect(config: Config, buffered: nat, d: Direction, payload: Bytes)
    requires payload != [] && buffered <= config.budget
    requires Draining(config, d)
    ensures FairStep(config, buffered, DirectionBytes(d), |payload|, Append(config, buffered, d, d.next, payload))
  {
    var grown := d.(contiguous := d.contiguous + payload, next := Add32(d.next, |payload|));
    if HasCapacity(config, buffered, |payload|) && |d.contiguous| + |payload| <= config.maxBytesPerDirection {
      AddAssociates(d.base, |d.contiguous|, |payload|);
      DrainCorrect(config, grown);
    }
  }

  lemma AddToBaseCorrect(config: Config, buffered: nat, b: Direction, sequence: U32, payload: Bytes)
    requires Draining(config, b) && buffered <= config.budget && 0 < |payload| < TWO_31
    requires sequence == b.next || DirectionOk(config, b)
    ensures FairStep(config, buffered, DirectionBytes(b), |payload|, Add(config, buffered, b, sequence, payload))
  {
    var distance := SequenceDistance(sequence, b.next);
    if distance == 0 {
      assert sequence == b.next;
      AppendCorrect(config, buffered, b, payload);
    } else if distance > 0 {
      QueueCorrect(config, buffered, b, sequence, payload);
    } else if Overlap(config, b, sequence, payload) == ConflictingOverlap {
    } else if SequenceDistance(Add32(sequence, |payload|), b.next) > 0 {
      TrimIsShorterThanPayload(sequence, b.next, |payload|);
      AppendCorrect(config, buffered, b, payload[-distance..]);
    }
  }

  /** One segment, whatever it holds and wherever it falls. */
  lemma AddCorrect(config: Config, buffered: nat, d: Direction, sequence: U32, payload: Bytes)
    requires DirectionOk(config, d) && buffered <= config.budget && |payload| < TWO_31
    ensures FairStep(config, buffered, DirectionBytes(d), |payload|, Add(config, buffered, d, sequence, payload))
  {
    if payload == [] {
    } else if !d.baseKnown && !IsStreamStart(payload) {
      QueueCorrect(config, buffered, d, sequence, payload);
    } else {
      var b := Rebased(d, sequence);
      AddToBaseCorrect(config, buffered, b, sequence, payload);
      assert Add(config, buffered, d, sequence, payload) == Add(config, buffered, b, sequence, payload);
    }
  }

  // ---------------------------------------------------------------- whole calls and runs

  lemma LiveWithoutExpired(config: Config, streams: map<StreamKey, Stream>, key: StreamKey, now: U64)
    requires key in streams && Expired(config, streams[key], now)
    ensures Live(config, streams - {key}, now) == Live(config, streams, now)
  {}

  lemma PurgedAccounted(config: Config, s: State, now: U64)
    requires Accounted(config, s)
    ensures Accounted(config, Purged(config, s, now))
    ensures Purged(config, s, now).buffered <= s.buffered
  {
    TotalOfPart(Live(config, s.streams, now), s.streams);
  }

  /** Removing a stream subtracts exactly its bytes. */
  lemma EraseAccounted(config: Config, s: State, key: StreamKey)
    requires Accounted(config, s)
    ensures Accounted(config, Erased(s, key))
    ensures Erased(s, key).buffered == s.buffered - (if key in s.streams then StreamBytes(s.streams[key]) else 0)
  {
    TotalOfPart(s.streams - {key}, s.streams);
    if key in s.streams {
      TotalWithout(s.streams, key);
    } else {
      WithoutAbsent(s.streams, key);
    }
  }

  /** Replacing (or adding) a stream moves the total by the difference of its bytes. */
  lemma StoreAccounted(config: Config, s: State, key: StreamKey, stream: Stream, buffered: nat)
    requires Accounted(config, s) && StreamOk(config, stream) && buffered <= config.budget
    requires key in s.streams || |s.streams| < config.maxStreams
    requires buffered - s.buffered ==
             StreamBytes(stream) - (if key in s.streams then StreamBytes(s.streams[key]) else 0)
    ensures Accounted(config, State(s.streams[key := stream], buffered))
  {
    assert buffered == TotalBytes(s.streams[key := stream]) by {
      EraseAccounted(config, s, key);
      TotalAfterUpdate(s.streams, key, stream);
    }
    var streams := s.streams[key := stream];
    assert |streams| <= config.maxStreams by {
      assert streams.Keys == s.streams.Keys + {key};
    }
    forall k | k in streams ensures StreamOk(config, streams[k]) {
      assert k != key ==> streams[k] == s.streams[k];
    }
  }

  lemma AddedToCorrect(config: Config, live: State, p: Segment)
    requires Accounted(config, live) && |p.payload| < TWO_31
    ensures var a, old' := AddedTo(config, live, p), StreamFor(live, p);
            && StreamBytes(old') == (if KeyOf(p.meta) in live.streams
                                     then StreamBytes(live.streams[KeyOf(p.meta)]) else 0)
            && StreamOk(config, old')
            && FairStep(config, live.buffered, DirectionBytes(old'.At(DirectionOf(p.meta))), |p.payload|, a)
  {
    assert DirectionBytes(EMPTY_DIRECTION) == 0;
    var d := StreamFor(live, p).At(DirectionOf(p.meta));
    AddCorrect(config, live.buffered, d, DataSequence(p.meta), p.payload);
  }

  /** Destroying a stream in the middle of a call: subtracting what it holds by then gives exactly
      the bytes of the others, and the saturation in the subtraction never takes effect. */
  lemma DiscardIsExact(config: Config, live: State, p: Segment)
    requires Accounted(config, live) && |p.payload| < TWO_31
    ensures var a := AddedTo(config, live, p);
            var held := StreamBytes(Stored(StreamFor(live, p), p, a.direction));
            held <= a.buffered && a.buffered - held == Erased(live, KeyOf(p.meta)).buffered
  {
    AddedToCorrect(config, live, p);
    EraseAccounted(config, live, KeyOf(p.meta));
  }

  lemma InsertedAccounted(config: Config, s: State, p: Segment)
    requires Accounted(config, s) && |p.payload| < TWO_31
    ensures Accounted(config, Inserted(config, s, p).0)
    ensures Inserted(config, s, p).0.buffered <= s.buffered + |p.payload|
  {
    if config.enabled && p.meta.protocol == Tcp {
      var live := Purged(config, s, p.now);
      PurgedAccounted(config, s, p.now);
      if Admits(config, live, p) {
        AddedToCorrect(config, live, p);
        var added := AddedTo(config, live, p);
        if added.status.Fatal() {
          EraseAccounted(config, live, KeyOf(p.meta));
        } else {
          StoreAccounted(config, live, KeyOf(p.meta), Stored(StreamFor(live, p), p, added.direction), added.buffered);
        }
      }
    }
  }

  /** A purge at time `now` keeps a stream, as it is, exactly when ageing is off or its age is within the timeout. The
      age is unsigned: a stamp from the future counts as almost a full turn of the clock ago. */
  lemma SurvivesPurgeIff(config: Config, s: State, now: U64, key: StreamKey)
    requires key in s.streams
    ensures var seen := s.streams[key].lastSeen;
            var age := if seen <= now then now - seen else TWO_64 - (seen - now);
            key in Purged(config, s, now).streams <==> config.timeoutCycles == 0 || age <= config.timeoutCycles
    ensures forall k | k in Purged(config, s, now).streams ::
              k in s.streams && Purged(config, s, now).streams[k] == s.streams[k]
  {
    hide TotalBytes;
  }

  /** In every state reachable from an empty reassembler the byte counter is the exact sum of
      the bytes held, within the budget, and every per-direction, per-queue and per-worker cap
      holds. */
  lemma {:induction false} RunAccounted(config: Config, s: State, ops: seq<Operation>)
    requires Accounted(config, s) && SmallCalls(ops)
    ensures Accounted(config, Operated(config, s, ops))
    decreases |ops|
  {
    if ops != [] {
      hide Accounted, Inserted, Purged;
      match ops[0] {
        case Call(p) =>
          InsertedAccounted(config, s, p);
          RunAccounted(config, Inserted(config, s, p).0, ops[1..]);
        case Cleanup(now) =>
          PurgedAccounted(config, s, now);
          RunAccounted(config, Purged(config, s, now), ops[1..]);
      }
    }
  }

  /** A clean-up leaves no trace once a later purge has run, exactly when that purge finds idle whatever the
      clean-up found idle. */
  lemma CleanupAbsorbedIff(config: Config, s: State, before: U64, now: U64)
    ensures Purged(config, Purged(config, s, before), now) == Purged(config, s, now) <==>
            forall k | k in s.streams && Expired(config, s.streams[k], before) :: Expired(config, s.streams[k], now)
  {
    hide Expired;
    var once, twice := Live(config, s.streams, now), Live(config, Live(config, s.streams, before), now);
    if k :| k in s.streams && Expired(config, s.streams[k], before) && !Expired(config, s.streams[k], now) {
      assert k in once && k !in twice;
    } else {
      assert once == twice;
    }
  }
}
