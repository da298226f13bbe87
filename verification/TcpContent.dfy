/** Content safety of the TCP reassembler: if every segment is a true slice of the byte stream its
    sender produced, the inspected prefix is a true slice too, in every reachable state and across
    any wrap of the sequence space. Also: which packets share a stream. */
module TcpContent {
  import opened Machine
  import opened Packet
  import opened TcpReassembly

  // ---------------------------------------------------------------- stream keys

  lemma {:induction false} BytesOrdered(a: Bytes, b: Bytes)
    requires |a| == |b|
    ensures a == b ==> !BytesLess(a, b)
    ensures a != b ==> (BytesLess(a, b) <==> !BytesLess(b, a))
  {
    if |a| > 0 {
      BytesOrdered(a[1..], b[1..]);
      assert a == [a[0]] + a[1..] && b == [b[0]] + b[1..];
    }
  }

  lemma EndpointsOrdered(x: Endpoint, y: Endpoint)
    ensures x == y ==> !EndpointLess(x, y)
    ensures x != y ==> (EndpointLess(x, y) <==> !EndpointLess(y, x))
  {
    BytesOrdered(x.address, y.address);
  }

  lemma WordBytesInjective(v: U32, w: U32)
    ensures WordBytes(v) == WordBytes(w) <==> v == w
  {
    if WordBytes(v) == WordBytes(w) {
      assert WordBytes(v)[0] == WordBytes(w)[0];
      assert WordBytes(v)[1] == WordBytes(w)[1];
      assert WordBytes(v)[2] == WordBytes(w)[2];
      assert WordBytes(v)[3] == WordBytes(w)[3];
      WordFromBytes(v);
      WordFromBytes(w);
    }
  }

  lemma WordFromBytes(v: U32)
    ensures v == v % 256 + 256 * (v / 256 % 256) + 65536 * (v / 65536 % 256) + 16777216 * (v / 16777216)
  {
    assert v / 65536 == v / 256 / 256;
    assert v / 16777216 == v / 65536 / 256;
  }

  /** Both directions of a connection share one stream and use opposite halves of it, unless the
      two endpoints are identical, in which case they are told apart by nothing. */
  lemma KeyIgnoresDirection(m: Metadata)
    ensures KeyOf(Reversed(m)) == KeyOf(m)
    ensures DirectionOf(Reversed(m)) != DirectionOf(m) <==> Source(m) != Destination(m)
  {
    EndpointsOrdered(Source(m), Destination(m));
  }

  /** Two packets share a stream exactly when they are of one IP version and join the same
      pair of endpoints, in either order. */
  lemma KeysSeparateConnections(m: Metadata, n: Metadata)
    ensures KeyOf(m) == KeyOf(n) <==>
            && m.version == n.version
            && (|| (Source(m) == Source(n) && Destination(m) == Destination(n))
                || (Source(m) == Destination(n) && Destination(m) == Source(n)))
  {
    EndpointsOrdered(Source(m), Destination(m));
    EndpointsOrdered(Source(n), Destination(n));
  }

  /** For IPv4 the endpoints are exactly address and port. */
  lemma Ipv4EndpointsAreAddresses(m: Metadata, n: Metadata)
    requires m.version == Ipv4 && n.version == Ipv4
    ensures Source(m) == Source(n) <==> m.sourceIp == n.sourceIp && m.sourcePort == n.sourcePort
    ensures Destination(m) == Destination(n) <==>
            m.destinationIp == n.destinationIp && m.destinationPort == n.destinationPort
  {
    WordBytesInjective(m.sourceIp, n.sourceIp);
    WordBytesInjective(m.destinationIp, n.destinationIp);
  }

  // ---------------------------------------------------------------- content

  /** What a sender really sent: `bytes[i]` carries sequence number `origin + i`, modulo 2^32. */
  datatype Truth = Truth(origin: U32, bytes: Bytes)

  type ShortTruth = t: Truth | |t.bytes| < TWO_31 witness Truth(0, [])

  /** `payload` at `sequence` is what the sender sent there. */
  ghost predicate TrueSlice(t: Truth, sequence: U32, payload: Bytes) {
    var a := Offset(t.origin, sequence);
    a + |payload| <= |t.bytes| && payload == t.bytes[a..a + |payload|]
  }

  /** Everything a direction holds is true, and its prefix is the slice that starts at the base. */
  ghost predicate TrueDirection(t: Truth, d: Direction) {
    && (d.baseKnown ==> TrueSlice(t, d.base, d.contiguous) && d.next == Add32(d.base, |d.contiguous|))
    && (!d.baseKnown ==> d.contiguous == [])
    && forall p | p in d.pending :: TrueSlice(t, p.sequence, p.payload)
  }

  /** Gluing a slice onto the end of another. */
  lemma SlicesJoin(t: ShortTruth, sequence: U32, head: Bytes, tail: Bytes)
    requires TrueSlice(t, sequence, head) && TrueSlice(t, Add32(sequence, |head|), tail)
    ensures TrueSlice(t, sequence, head + tail)
  {
    var a := Offset(t.origin, sequence);
    AddOfOffset(t.origin, sequence);
    AddAssociates(t.origin, a, |head|);
    OffsetOfAdd(t.origin, a + |head|);
    assert t.bytes[a..a + |head|] + t.bytes[a + |head|..a + |head| + |tail|] == t.bytes[a..a + |head| + |tail|];
  }

  /** Cutting the head off a slice that reaches past `next` leaves the slice at `next`. */
  lemma SliceTrims(t: ShortTruth, sequence: U32, payload: Bytes, next: U32)
    requires TrueSlice(t, sequence, payload)
    requires Offset(t.origin, next) <= |t.bytes|
    requires SequenceDistance(sequence, next) < 0 && 0 < -SequenceDistance(sequence, next) < |payload|
    ensures TrueSlice(t, next, payload[-SequenceDistance(sequence, next)..])
  {
    DistanceIsOffsetDifference(t.origin, sequence, next);
  }

  lemma {:induction false} DrainKeepsTruth(t: ShortTruth, limit: nat, d: Direction)
    requires TrueDirection(t, d) && d.baseKnown
    ensures TrueDirection(t, Drain(limit, d).0) && Drain(limit, d).0.baseKnown
    decreases |d.pending|
  {
    var i := FirstAt(d.pending, d.next);
    if i < |d.pending| && |d.contiguous| + |d.pending[i].payload| <= limit {
      var p := d.pending[i];
      assert p in d.pending;
      SlicesJoin(t, d.base, d.contiguous, p.payload);
      AddAssociates(d.base, |d.contiguous|, |p.payload|);
      DrainKeepsTruth(t, limit, Absorb(d, i));
    }
  }

  lemma AppendKeepsTruth(config: Config, buffered: nat, t: ShortTruth, d: Direction, payload: Bytes)
    requires TrueDirection(t, d) && d.baseKnown && TrueSlice(t, d.next, payload)
    ensures TrueDirection(t, Append(config, buffered, d, d.next, payload).direction)
  {
    SlicesJoin(t, d.base, d.contiguous, payload);
    AddAssociates(d.base, |d.contiguous|, |payload|);
    DrainKeepsTruth(t, config.maxBytesPerDirection,
                    d.(contiguous := d.contiguous + payload, next := Add32(d.next, |payload|)));
  }

  lemma NextInBounds(t: ShortTruth, d: Direction)
    requires TrueDirection(t, d) && d.baseKnown
    ensures Offset(t.origin, d.next) == Offset(t.origin, d.base) + |d.contiguous| <= |t.bytes|
  {
    var b := Offset(t.origin, d.base);
    AddOfOffset(t.origin, d.base);
    AddAssociates(t.origin, b, |d.contiguous|);
    OffsetOfAdd(t.origin, b + |d.contiguous|);
  }

  lemma QueueKeepsTruth(config: Config, buffered: nat, t: ShortTruth, d: Direction, sequence: U32, payload: Bytes)
    requires TrueDirection(t, d) && TrueSlice(t, sequence, payload)
    ensures TrueDirection(t, Queue(config, buffered, d, sequence, payload).direction)
  {}

  /** The SYN bit, the second lowest of the flags, consumes one sequence number; no other flag does. */
  lemma OnlySynShifts(m: Metadata, fin: nat, syn: nat, others: nat)
    requires fin <= 1 && syn <= 1 && m.tcpFlags == fin + 2 * syn + 4 * others
    ensures DataSequence(m) == Add32(m.tcpSequence, syn)
  {}

  lemma RebasedIsTrue(t: ShortTruth, d: Direction, sequence: U32, payload: Bytes)
    requires TrueDirection(t, d) && TrueSlice(t, sequence, payload)
    ensures TrueDirection(t, Rebased(d, sequence))
  {}

  /** One segment, with any overlap, duplication or cut point, whatever the verdict. */
  lemma AddKeepsTruth(config: Config, buffered: nat, t: ShortTruth, d: Direction, sequence: U32, payload: Bytes)
    requires TrueDirection(t, d) && TrueSlice(t, sequence, payload) && |payload| < TWO_31
    ensures TrueDirection(t, Add(config, buffered, d, sequence, payload).direction)
  {
    hide Queue, Append, Overlap, IsStreamStart, TrueSlice, TrueDirection, SequenceDistance, Add32, Offset;
    if payload == [] {
    } else if !d.baseKnown && !IsStreamStart(payload) {
      QueueKeepsTruth(config, buffered, t, d, sequence, payload);
    } else {
      var b := Rebased(d, sequence);
      RebasedIsTrue(t, d, sequence, payload);
      NextInBounds(t, b);
      ZeroDistance(sequence, b.next);
      var distance := SequenceDistance(sequence, b.next);
      if distance == 0 {
        AppendKeepsTruth(config, buffered, t, b, payload);
      } else if distance > 0 {
        QueueKeepsTruth(config, buffered, t, b, sequence, payload);
      } else if SequenceDistance(Add32(sequence, |payload|), b.next) > 0 {
        TrimIsShorterThanPayload(sequence, b.next, |payload|);
        SliceTrims(t, sequence, payload, b.next);
        AppendKeepsTruth(config, buffered, t, b, payload[-distance..]);
      }
    }
  }

  /** A true slice never disagrees with true content: the only conflict the overlap check can
      report is a segment that starts before the base. */
  lemma TrueSlicesNeverConflict(config: Config, t: ShortTruth, d: Direction, sequence: U32, payload: Bytes)
    requires TrueDirection(t, d) && d.baseKnown && TrueSlice(t, sequence, payload)
    ensures Overlap(config, d, sequence, payload) == ConflictingOverlap <==>
            config.dropConflicting && Offset(t.origin, sequence) < Offset(t.origin, d.base)
  {
    NextInBounds(t, d);
    DistanceIsOffsetDifference(t.origin, sequence, d.base);
    var a, b := Offset(t.origin, sequence), Offset(t.origin, d.base);
    hide Offset, SequenceDistance, Add32;
    if b <= a < b + |d.contiguous| {
      SlicesAgree(t.bytes, a, payload, b, d.contiguous, Min(|payload|, |d.contiguous| - (a - b)));
    }
  }

  lemma SlicesAgree(whole: Bytes, a: nat, x: Bytes, b: nat, y: Bytes, n: nat)
    requires a + |x| <= |whole| && b + |y| <= |whole| && x == whole[a..a + |x|] && y == whole[b..b + |y|]
    requires b <= a && n <= |x| && a - b + n <= |y|
    ensures x[..n] == y[a - b..a - b + n]
  {
    forall i | 0 <= i < n ensures x[..n][i] == y[a - b..a - b + n][i] {
      assert x[i] == whole[a + i] && y[a - b + i] == whole[b + (a - b + i)];
    }
  }

  /** The senders behind every stream: one truth per stream key and direction. */
  type Senders = (StreamKey, DirectionIndex) -> ShortTruth

  ghost predicate TrueState(senders: Senders, s: State) {
    forall k | k in s.streams ::
      && TrueDirection(senders(k, 0), s.streams[k].first)
      && TrueDirection(senders(k, 1), s.streams[k].second)
  }

  ghost predicate TrueSegment(senders: Senders, p: Segment) {
    TrueSlice(senders(KeyOf(p.meta), DirectionOf(p.meta)), DataSequence(p.meta), p.payload)
  }

  /** `part` occurs in `whole` from position `b` on. */
  ghost predicate OccursAt(part: Bytes, whole: Bytes, b: nat) {
    b + |part| <= |whole| && part == whole[b..b + |part|]
  }

  lemma InsertedKeepsTruth(config: Config, senders: Senders, s: State, p: Segment)
    requires TrueState(senders, s) && |p.payload| < TWO_31 && TrueSegment(senders, p)
    ensures TrueState(senders, Inserted(config, s, p).0)
    ensures exists b :: OccursAt(Inserted(config, s, p).1.payload, senders(KeyOf(p.meta), DirectionOf(p.meta)).bytes, b)
  {
    hide Add, KeyOf, DirectionOf, DataSequence, TotalBytes, TrueSlice;
    var key, i := KeyOf(p.meta), DirectionOf(p.meta);
    var r := Inserted(config, s, p).1.payload;
    assert r == [] ==> OccursAt(r, senders(key, i).bytes, 0);
    if config.enabled && p.meta.protocol == Tcp {
      var live := Purged(config, s, p.now);
      var d := StreamFor(live, p).At(i);
      AddKeepsTruth(config, live.buffered, senders(key, i), d, DataSequence(p.meta), p.payload);
      PrefixOccurs(senders(key, i), AddedTo(config, live, p).direction);
    }
  }

  lemma PrefixOccurs(t: ShortTruth, d: Direction)
    requires TrueDirection(t, d)
    ensures exists b :: OccursAt(d.contiguous, t.bytes, b)
  {
    assert OccursAt(d.contiguous, t.bytes, if d.baseKnown then Offset(t.origin, d.base) else 0);
  }

  /** Every call delivers true segments. */
  ghost predicate TrueCalls(senders: Senders, ops: seq<Operation>) {
    forall i :: 0 <= i < |ops| && ops[i].Call? ==> TrueSegment(senders, ops[i].p)
  }

  /** Over any run of calls on true segments, with clean-ups between them, for any number of interleaved
      streams and with any reordering, overlap, duplication, expiry and sequence wrap: every stored prefix
      is exactly the sender's bytes from the base on, and its next expected sequence is base plus length. */
  lemma {:induction false} RunKeepsTruth(config: Config, senders: Senders, s: State, ops: seq<Operation>)
    requires TrueState(senders, s) && SmallCalls(ops) && TrueCalls(senders, ops)
    ensures TrueState(senders, Operated(config, s, ops))
    decreases |ops|
  {
    if ops != [] {
      assert TrueCalls(senders, ops[1..]);
      assert ops[0].Call? ==> TrueSegment(senders, ops[0].p);
      hide TrueSegment, TrueDirection, TrueCalls, Inserted;
      match ops[0] {
        case Call(p) =>
          InsertedKeepsTruth(config, senders, s, p);
          RunKeepsTruth(config, senders, Inserted(config, s, p).0, ops[1..]);
        case Cleanup(now) =>
          RunKeepsTruth(config, senders, Purged(config, s, now), ops[1..]);
      }
    }
  }
}
