/** Segmentation and order independence of the TCP reassembler: however a byte stream is cut into
    consecutive segments and in whatever order, and however often, they arrive, the inspected prefix
    depends only on which segments have arrived. */
module TcpOrder {
  import opened Machine
  import opened Packet
  import opened TcpReassembly
  import opened TcpAccounting
  import TcpContent

  // ---------------------------------------------------------------- a cut stream

  /** A byte stream starting at sequence `origin`, cut at `bounds`. */
  datatype Cut = Cut(origin: U32, bytes: Bytes, bounds: seq<nat>) {
    function Count(): nat
      requires |bounds| > 0
    {
      |bounds| - 1
    }

    ghost predicate Shaped() {
      && |bytes| < TWO_31
      && |bounds| > 1
      && bounds[0] == 0 && bounds[|bounds| - 1] == |bytes|
      && (forall i, j :: 0 <= i < j < |bounds| ==> bounds[i] < bounds[j])
    }

    function Part(i: nat): Bytes
      requires Shaped() && i < Count()
    {
      bytes[bounds[i]..bounds[i + 1]]
    }

    function At(i: nat): U32
      requires Shaped() && i <= Count()
    {
      Add32(origin, bounds[i])
    }

    /** Only the first segment looks like the start of an HTTP request or TLS handshake. */
    ghost predicate Valid() {
      Shaped() && forall i :: 0 <= i < Count() ==> (IsStreamStart(Part(i)) <==> i == 0)
    }
  }

  /** How many leading segments are in `seen`, counting from `m`. */
  function Reach(seen: set<nat>, m: nat, count: nat): (r: nat)
    requires m <= count
    ensures m <= r <= count
    ensures forall j :: m <= j < r ==> j in seen
    ensures r < count ==> r !in seen
    decreases count - m
  {
    if m == count || m !in seen then m else Reach(seen, m + 1, count)
  }

  /** Bytes of the segments in `seen` among the first `n`. */
  function Weight(c: Cut, seen: set<nat>, n: nat): nat
    requires c.Shaped() && n <= c.Count()
  {
    if n == 0 then 0 else Weight(c, seen, n - 1) + if n - 1 in seen then |c.Part(n - 1)| else 0
  }

  lemma {:induction false} WeightGrows(c: Cut, seen: set<nat>, i: nat, n: nat)
    requires c.Shaped() && n <= c.Count() && i !in seen
    ensures Weight(c, seen + {i}, n) == Weight(c, seen, n) + if i < n then |c.Part(i)| else 0
    ensures Weight(c, seen, n) + (if i < n then |c.Part(i)| else 0) <= c.bounds[n]
  {
    if n > 0 {
      WeightGrows(c, seen, i, n - 1);
    }
  }

  lemma {:induction false} WeightBound(c: Cut, seen: set<nat>, n: nat)
    requires c.Shaped() && n <= c.Count()
    ensures Weight(c, seen, n) <= c.bounds[n]
  {
    if n > 0 {
      WeightBound(c, seen, n - 1);
    }
  }

  lemma {:induction false} WeightOfNothing(c: Cut, n: nat)
    requires c.Shaped() && n <= c.Count()
    ensures Weight(c, {}, n) == 0
  {
    if n > 0 {
      WeightOfNothing(c, n - 1);
    }
  }

  // ---------------------------------------------------------------- one direction

  function Queued(c: Cut, i: nat): Pending
    requires c.Shaped() && i < c.Count()
  {
    Pending(c.At(i), c.Part(i))
  }

  /** `ids` lists, in queue order, which segments are queued; all of them lie at or after `m`. */
  ghost predicate Queues(c: Cut, pending: seq<Pending>, ids: seq<nat>, m: nat)
    requires c.Shaped()
  {
    && |pending| == |ids|
    && (forall j :: 0 <= j < |ids| ==> m <= ids[j] < c.Count())
    && (forall j :: 0 <= j < |ids| ==> pending[j] == Queued(c, ids[j]))
    && (forall i, j :: 0 <= i < j < |ids| ==> ids[i] != ids[j])
  }

  /** The prefix is exactly the first `m` segments. */
  ghost predicate HoldsPrefix(c: Cut, d: Direction, m: nat)
    requires c.Shaped()
  {
    && m <= c.Count()
    && d.contiguous == c.bytes[..c.bounds[m]]
    && (d.baseKnown ==> d.base == c.origin && d.next == c.At(m))
  }

  /** The direction after exactly the segments in `seen` have arrived. */
  ghost predicate Grid(c: Cut, d: Direction, seen: set<nat>, ids: seq<nat>) {
    && c.Valid()
    && (forall i | i in seen :: i < c.Count())
    && var m := Reach(seen, 0, c.Count());
    && (d.baseKnown <==> 0 in seen)
    && HoldsPrefix(c, d, m)
    && Queues(c, d.pending, ids, m)
    && (forall i :: i in ids <==> i in seen && i > m)
  }

  lemma PositionsDiffer(c: Cut, i: nat, j: nat)
    requires c.Shaped() && i <= c.Count() && j <= c.Count()
    ensures c.bounds[j] + SequenceDistance(c.At(i), c.At(j)) == c.bounds[i]
    ensures c.At(i) == c.At(j) <==> i == j
  {
    OffsetOfAdd(c.origin, c.bounds[i]);
    OffsetOfAdd(c.origin, c.bounds[j]);
    DistanceIsOffsetDifference(c.origin, c.At(i), c.At(j));
    assert i < j ==> c.bounds[i] < c.bounds[j];
    assert j < i ==> c.bounds[j] < c.bounds[i];
  }

  lemma QueueLookup(c: Cut, pending: seq<Pending>, ids: seq<nat>, m: nat, i: nat)
    requires c.Shaped() && Queues(c, pending, ids, m) && i <= c.Count()
    ensures var j := FirstAt(pending, c.At(i)); if i in ids then j < |ids| && ids[j] == i else j == |ids|
  {
    forall j | 0 <= j < |ids| ensures pending[j].sequence == c.At(i) <==> ids[j] == i {
      assert pending[j] == Queued(c, ids[j]);
      PositionsDiffer(c, ids[j], i);
    }
  }

  lemma NextPosition(c: Cut, m: nat)
    requires c.Shaped() && m < c.Count()
    ensures Add32(c.At(m), |c.Part(m)|) == c.At(m + 1)
    ensures c.bytes[..c.bounds[m]] + c.Part(m) == c.bytes[..c.bounds[m + 1]]
    ensures |c.Part(m)| > 0 && c.bounds[m] + |c.Part(m)| == c.bounds[m + 1] <= |c.bytes|
  {
    assert c.bounds[m] < c.bounds[m + 1];
    assert c.bounds[m + 1] <= |c.bytes| by {
      assert m + 1 < |c.bounds| - 1 ==> c.bounds[m + 1] < c.bounds[|c.bounds| - 1];
    }
    AddAssociates(c.origin, c.bounds[m], |c.Part(m)|);
  }

  lemma WithoutOne(ids: seq<nat>, j: nat) returns (rest: seq<nat>)
    requires j < |ids| && forall x, y :: 0 <= x < y < |ids| ==> ids[x] != ids[y]
    ensures rest == ids[..j] + ids[j + 1..]
    ensures forall x :: 0 <= x < |rest| ==> rest[x] == if x < j then ids[x] else ids[x + 1]
    ensures forall x, y :: 0 <= x < y < |rest| ==> rest[x] != rest[y]
    ensures forall i :: i in rest <==> i in ids && i != ids[j]
  {
    rest := ids[..j] + ids[j + 1..];
    forall i ensures i in rest <==> i in ids && i != ids[j] {
      if i in ids && i != ids[j] {
        var x :| 0 <= x < |ids| && ids[x] == i;
        assert rest[if x < j then x else x - 1] == i;
      }
    }
  }

  lemma AbsorbGrid(c: Cut, d: Direction, m: nat, ids: seq<nat>, j: nat) returns (rest: seq<nat>)
    requires c.Shaped() && d.baseKnown && HoldsPrefix(c, d, m) && Queues(c, d.pending, ids, m)
    requires j < |ids| && ids[j] == m
    ensures |rest| < |ids|
    ensures HoldsPrefix(c, Absorb(d, j), m + 1) && Queues(c, Absorb(d, j).pending, rest, m + 1)
    ensures Absorb(d, j).baseKnown
    ensures forall i :: i in rest <==> i in ids && i != m
  {
    rest := WithoutOne(ids, j);
    NextPosition(c, m);
    assert d.pending[j] == Queued(c, m);
    var pending := Absorb(d, j).pending;
    hide Add32;
    forall x | 0 <= x < |rest| ensures pending[x] == Queued(c, rest[x]) && m + 1 <= rest[x] < c.Count() {
      var y := if x < j then x else x + 1;
      assert pending[x] == d.pending[y] && rest[x] == ids[y] && ids[y] != m;
    }
  }

  function SetOf(ids: seq<nat>): set<nat> {
    set i | i in ids
  }

  lemma {:induction false} ReachAgrees(a: set<nat>, b: set<nat>, m: nat, count: nat)
    requires m <= count && forall i :: m <= i < count ==> (i in a <==> i in b)
    ensures Reach(a, m, count) == Reach(b, m, count)
    decreases count - m
  {
    if m < count && m in a {
      ReachAgrees(a, b, m + 1, count);
    }
  }

  /** Draining a queue of segments absorbs exactly the run that continues the prefix, if it fits, and fails if it
      does not. */
  lemma {:induction false} DrainGrid(c: Cut, limit: nat, d: Direction, m: nat, ids: seq<nat>) returns (ids': seq<nat>)
    requires c.Shaped() && d.baseKnown && HoldsPrefix(c, d, m) && Queues(c, d.pending, ids, m)
    requires c.bounds[m] <= limit
    ensures var (r, status) := Drain(limit, d);
            var m' := Reach(SetOf(ids), m, c.Count());
            if c.bounds[m'] <= limit then
              && status == Ready && r.baseKnown && HoldsPrefix(c, r, m') && Queues(c, r.pending, ids', m')
              && (forall i :: i in ids' <==> i in ids && i > m')
            else status == ResourceLimit
    decreases |ids|
  {
    DrainOnce(limit, d);
    hide Drain, Absorb, Add32;
    QueueLookup(c, d.pending, ids, m, m);
    var j := FirstAt(d.pending, d.next);
    ids' := ids;
    if j < |d.pending| {
      NextPosition(c, m);
      assert d.pending[j] == Queued(c, m) && m in SetOf(ids);
      var m' := Reach(SetOf(ids), m, c.Count());
      BoundsOrdered(c, m + 1, m');
      if c.bounds[m + 1] <= limit {
        var rest := AbsorbGrid(c, d, m, ids, j);
        ReachAgrees(SetOf(rest), SetOf(ids), m + 1, c.Count());
        hide HoldsPrefix, Queues;
        ids' := DrainGrid(c, limit, Absorb(d, j), m + 1, rest);
      }
    }
  }

  lemma DrainOnce(limit: nat, d: Direction)
    ensures Drain(limit, d) ==
            var i := FirstAt(d.pending, d.next);
            if i == |d.pending| then (d, Ready)
            else if |d.contiguous| + |d.pending[i].payload| > limit then (d, ResourceLimit)
            else Drain(limit, Absorb(d, i))
  {}

  // ---------------------------------------------------------------- one arrival

  lemma ReachIs(seen: set<nat>, count: nat, r: nat)
    requires r <= count && (forall j :: 0 <= j < r ==> j in seen) && (r < count ==> r !in seen)
    ensures Reach(seen, 0, count) == r
  {}

  /** Once the first gap is filled, the reach is that of what was queued behind it. */
  lemma {:induction false} ReachPast(seen: set<nat>, m: nat, count: nat)
    requires m < count && forall i :: 0 <= i <= m ==> i in seen
    ensures Reach(seen, 0, count) == Reach(seen, m + 1, count)
  {
    ReachIs(seen, count, Reach(seen, m + 1, count));
  }

  /** What one arrival of segment `i` must achieve. */
  ghost predicate Advances(c: Cut, buffered: nat, seen: set<nat>, i: nat, a: Added, ids: seq<nat>)
    requires c.Shaped() && i < c.Count()
  {
    && !a.status.Fatal()
    && Grid(c, a.direction, seen + {i}, ids)
    && a.buffered == buffered + if i in seen then 0 else |c.Part(i)|
  }

  lemma AddAtNext(config: Config, buffered: nat, d: Direction, sequence: U32, payload: Bytes)
    requires 0 < |payload| < TWO_31
    requires if d.baseKnown then sequence == d.next else IsStreamStart(payload)
    ensures Add(config, buffered, d, sequence, payload) ==
            Append(config, buffered, Rebased(d, sequence), sequence, payload)
  {
    ZeroDistance(sequence, sequence);
  }

  lemma AddBeyond(config: Config, buffered: nat, d: Direction, sequence: U32, payload: Bytes)
    requires 0 < |payload| < TWO_31
    requires if d.baseKnown then SequenceDistance(sequence, d.next) > 0 else !IsStreamStart(payload)
    ensures Add(config, buffered, d, sequence, payload) == Queue(config, buffered, d, sequence, payload)
  {}

  lemma SliceOfPrefix(s: Bytes, x: nat, a: nat, b: nat)
    requires a <= b <= x <= |s|
    ensures s[..x][a..b] == s[a..b]
  {}

  lemma BoundsOrdered(c: Cut, i: nat, j: nat)
    requires c.Shaped() && i <= j <= c.Count()
    ensures c.bounds[i] <= c.bounds[j] <= |c.bytes|
  {
    assert i < j ==> c.bounds[i] < c.bounds[j];
    assert j < c.Count() ==> c.bounds[j] < c.bounds[c.Count()];
  }

  /** The next missing segment: appended, then everything it unblocks is drained. It is accepted exactly when the budget
      allows it and the prefix it completes fits the direction. */
  lemma ArriveNext(config: Config, buffered: nat, c: Cut, d: Direction, seen: set<nat>, ids: seq<nat>, i: nat)
    returns (ids': seq<nat>)
    requires Grid(c, d, seen, ids) && i < c.Count() && i == Reach(seen, 0, c.Count())
    ensures var a := Add(config, buffered, d, c.At(i), c.Part(i));
            if buffered + |c.Part(i)| <= config.budget
               && c.bounds[Reach(seen + {i}, 0, c.Count())] <= config.maxBytesPerDirection
            then Advances(c, buffered, seen, i, a, ids') else a.status == ResourceLimit
  {
    hide Add, Drain, Add32, IsStreamStart, Grid, HoldsPrefix, Queues, Reach;
    NextSize(config, c, d, seen, ids, i);
    AddAtNext(config, buffered, d, c.At(i), c.Part(i));
    GrownGrid(c, d, seen, ids, i);
    var grown := Grown(c, d, i);
    BoundsOrdered(c, i + 1, Reach(seen + {i}, 0, c.Count()));
    ids' := ids;
    if c.bounds[i + 1] <= config.maxBytesPerDirection {
      ids' := DrainGrid(c, config.maxBytesPerDirection, grown, i + 1, ids);
      if c.bounds[Reach(seen + {i}, 0, c.Count())] <= config.maxBytesPerDirection {
        DrainedGrid(c, d, seen, ids, i, Drain(config.maxBytesPerDirection, grown).0, ids');
      }
    }
  }

  /** The direction with segment `i` appended. */
  function Grown(c: Cut, d: Direction, i: nat): Direction
    requires c.Shaped() && i < c.Count()
  {
    var b := Rebased(d, c.At(i));
    b.(contiguous := b.contiguous + c.Part(i), next := Add32(c.At(i), |c.Part(i)|))
  }

  lemma NextSize(config: Config, c: Cut, d: Direction, seen: set<nat>, ids: seq<nat>, i: nat)
    requires Grid(c, d, seen, ids) && i < c.Count() && i == Reach(seen, 0, c.Count())
    ensures c.Valid()
    ensures |d.contiguous| + |c.Part(i)| == c.bounds[i + 1] && 0 < |c.Part(i)| < TWO_31 && i !in seen
    ensures if d.baseKnown then c.At(i) == d.next else IsStreamStart(c.Part(i))
    ensures Reach(seen + {i}, 0, c.Count()) >= i + 1
  {
    hide IsStreamStart, Add32, Queues;
    NextPosition(c, i);
    ReachPast(seen + {i}, i, c.Count());
  }

  lemma GrownGrid(c: Cut, d: Direction, seen: set<nat>, ids: seq<nat>, i: nat)
    requires Grid(c, d, seen, ids) && i < c.Count() && i == Reach(seen, 0, c.Count())
    ensures var grown := Grown(c, d, i);
            grown.baseKnown && HoldsPrefix(c, grown, i + 1) && Queues(c, grown.pending, ids, i + 1)
    ensures Reach(SetOf(ids), i + 1, c.Count()) == Reach(seen + {i}, 0, c.Count())
  {
    hide IsStreamStart;
    NextPosition(c, i);
    AtOrigin(c);
    ReachAgrees(SetOf(ids), seen + {i}, i + 1, c.Count());
    ReachPast(seen + {i}, i, c.Count());
    hide Add32;
  }

  lemma DrainedGrid(c: Cut, d: Direction, seen: set<nat>, ids: seq<nat>, i: nat, r: Direction, ids': seq<nat>)
    requires Grid(c, d, seen, ids) && i < c.Count() && i == Reach(seen, 0, c.Count()) && r.baseKnown
    requires var m' := Reach(seen + {i}, 0, c.Count());
             && HoldsPrefix(c, r, m') && Queues(c, r.pending, ids', m')
             && (forall j :: j in ids' <==> j in ids && j > m')
    ensures Grid(c, r, seen + {i}, ids')
  {
    hide Add32, IsStreamStart, HoldsPrefix, Queues;
    ReachPast(seen + {i}, i, c.Count());
  }

  lemma AtOrigin(c: Cut)
    requires c.Shaped()
    ensures c.At(0) == c.origin
  {}

  /** A segment beyond a gap: queued once, however often it arrives. */
  lemma ArriveLater(config: Config, buffered: nat, c: Cut, d: Direction, seen: set<nat>, ids: seq<nat>, i: nat)
    returns (ids': seq<nat>)
    requires Grid(c, d, seen, ids) && Reach(seen, 0, c.Count()) < i < c.Count()
    ensures var a := Add(config, buffered, d, c.At(i), c.Part(i));
            if buffered + |c.Part(i)| <= config.budget && |d.pending| < config.maxOutOfOrder
            then Advances(c, buffered, seen, i, a, ids') else a.status == ResourceLimit
  {
    hide Add, Add32, IsStreamStart, SequenceDistance;
    var m := Reach(seen, 0, c.Count());
    NextPosition(c, i);
    QueueLookup(c, d.pending, ids, m, i);
    PositionsDiffer(c, i, m);
    BoundsOrdered(c, m, i);
    assert c.bounds[m] < c.bounds[i];
    AddBeyond(config, buffered, d, c.At(i), c.Part(i));
    if i in seen {
      ids' := ids;
      assert seen + {i} == seen;
    } else {
      ids' := ids + [i];
      GridQueues(c, d, seen, ids, i);
    }
    hide Grid;
  }

  /** Queueing a segment beyond the gap. */
  lemma GridQueues(c: Cut, d: Direction, seen: set<nat>, ids: seq<nat>, i: nat)
    requires Grid(c, d, seen, ids) && Reach(seen, 0, c.Count()) < i < c.Count() && i !in seen
    ensures Grid(c, d.(pending := d.pending + [Pending(c.At(i), c.Part(i))]), seen + {i}, ids + [i])
  {
    ReachIs(seen + {i}, c.Count(), Reach(seen, 0, c.Count()));
  }

  /** A segment that is already part of the prefix: recognised and ignored. */
  lemma ArriveAgain(config: Config, buffered: nat, c: Cut, d: Direction, seen: set<nat>, ids: seq<nat>, i: nat)
    requires Grid(c, d, seen, ids) && i < Reach(seen, 0, c.Count())
    ensures Add(config, buffered, d, c.At(i), c.Part(i)) == Added(d, buffered, Waiting)
    ensures i in seen && 0 in seen
  {
    hide Append, Queue, IsStreamStart, SequenceDistance, Reach;
    var m := Reach(seen, 0, c.Count());
    NextPosition(c, i);
    PositionsDiffer(c, i, m);
    PositionsDiffer(c, i + 1, m);
    PositionsDiffer(c, i, 0);
    AtOrigin(c);
    BoundsOrdered(c, i + 1, m);
    SliceOfPrefix(c.bytes, c.bounds[m], c.bounds[i], c.bounds[i + 1]);
    hide Add32;
    assert Overlap(config, d, c.At(i), c.Part(i)) == Waiting;
  }

  lemma {:induction false} DistinctFit(ids: seq<nat>, pool: set<nat>)
    requires (forall i, j :: 0 <= i < j < |ids| ==> ids[i] != ids[j]) && forall i | i in ids :: i in pool
    ensures |ids| <= |pool|
  {
    if ids != [] {
      var n := |ids| - 1;
      DistinctFit(ids[..n], pool - {ids[n]});
    }
  }

  lemma {:induction false} RangeSize(n: nat) returns (pool: set<nat>)
    ensures |pool| == n && forall i :: i in pool <==> 1 <= i <= n
  {
    if n == 0 {
      pool := {};
    } else {
      pool := RangeSize(n - 1);
      pool := pool + {n};
    }
  }

  /** The queue never holds the first segment, nor one that is yet to arrive. */
  lemma QueueLength(c: Cut, d: Direction, seen: set<nat>, ids: seq<nat>, i: nat)
    requires Grid(c, d, seen, ids) && i < c.Count()
    ensures |ids| < c.Count()
    ensures i !in seen && i > 0 ==> |ids| + 1 < c.Count()
  {
    var pool := RangeSize(c.Count() - 1);
    DistinctFit(ids, pool);
    if i !in seen && i > 0 {
      DistinctFit(ids, pool - {i});
    }
  }

  /** Room for one arrival of segment `i`: none is needed within the prefix; otherwise the budget must allow
      it, and the prefix it completes must fit the direction, or the queue must have a place. A retransmission
      of a queued segment is charged before it is recognised, so it needs room as well. */
  ghost predicate Room(config: Config, c: Cut, buffered: nat, d: Direction, seen: set<nat>, i: nat)
    requires c.Shaped() && i < c.Count()
  {
    var m := Reach(seen, 0, c.Count());
    || i < m
    || (&& buffered + |c.Part(i)| <= config.budget
        && if i == m then c.bounds[Reach(seen + {i}, 0, c.Count())] <= config.maxBytesPerDirection
           else |d.pending| < config.maxOutOfOrder)
  }

  /** Any arrival, of any segment, at any time: it is accepted exactly when there is room, and then the direction is
      what the set of arrived segments determines. */
  lemma Arrive(config: Config, buffered: nat, c: Cut, d: Direction, seen: set<nat>, ids: seq<nat>, i: nat)
    returns (ids': seq<nat>)
    requires Grid(c, d, seen, ids) && i < c.Count()
    ensures var a := Add(config, buffered, d, c.At(i), c.Part(i));
            if Room(config, c, buffered, d, seen, i) then Advances(c, buffered, seen, i, a, ids')
            else a.status == ResourceLimit
  {
    hide Add;
    var m := Reach(seen, 0, c.Count());
    if i == m {
      ids' := ArriveNext(config, buffered, c, d, seen, ids, i);
    } else if i > m {
      ids' := ArriveLater(config, buffered, c, d, seen, ids, i);
    } else {
      ids' := ids;
      ArriveAgain(config, buffered, c, d, seen, ids, i);
      assert seen + {i} == seen;
    }
  }

  /** Room that can be seen in advance: the whole stream fits the direction, all its segments fit the queue,
      and the budget has the bytes. */
  ghost predicate AmpleRoom(config: Config, c: Cut, buffered: nat, seen: set<nat>, i: nat)
    requires c.Shaped() && i < c.Count()
  {
    && |c.bytes| <= config.maxBytesPerDirection
    && buffered + |c.Part(i)| <= config.budget
    && c.Count() <= config.maxOutOfOrder + if i in seen then 0 else 1
  }

  lemma AmpleIsRoom(config: Config, c: Cut, buffered: nat, d: Direction, seen: set<nat>, ids: seq<nat>, i: nat)
    requires Grid(c, d, seen, ids) && i < c.Count() && AmpleRoom(config, c, buffered, seen, i)
    ensures Room(config, c, buffered, d, seen, i)
  {
    QueueLength(c, d, seen, ids, i);
    BoundsOrdered(c, 0, Reach(seen + {i}, 0, c.Count()));
  }

  // ---------------------------------------------------------------- exactly what is refused

  /** The drain without a limit. */
  function Drained(d: Direction): (r: Direction)
    ensures |r.contiguous| >= |d.contiguous|
    decreases |d.pending|
  {
    var i := FirstAt(d.pending, d.next);
    if i == |d.pending| then d else Drained(Absorb(d, i))
  }

  /** A drain fails exactly when what it would come to does not fit. */
  lemma {:induction false} DrainFits(limit: nat, d: Direction)
    requires |d.contiguous| <= limit
    ensures Drain(limit, d).1 == if |Drained(d).contiguous| <= limit then Ready else ResourceLimit
    decreases |d.pending|
  {
    DrainOnce(limit, d);
    var i := FirstAt(d.pending, d.next);
    if i < |d.pending| && |d.contiguous| + |d.pending[i].payload| <= limit {
      DrainFits(limit, Absorb(d, i));
    }
  }

  /** The budget has no room for the payload. */
  predicate OverBudget(config: Config, buffered: nat, payload: Bytes) {
    buffered + |payload| > config.budget
  }

  /** Another payload is queued under the same number. */
  predicate Rivalled(d: Direction, sequence: U32, payload: Bytes) {
    exists i :: 0 <= i < |d.pending| && d.pending[i].sequence == sequence && d.pending[i].payload != payload
  }

  /** The queue has no place, the budget no bytes, or another payload is queued under the same number. */
  predicate QueueRefuses(config: Config, buffered: nat, d: Direction, sequence: U32, payload: Bytes) {
    |d.pending| >= config.maxOutOfOrder || OverBudget(config, buffered, payload) || Rivalled(d, sequence, payload)
  }

  /** The budget has no bytes, or the direction no room for the payload and what it connects to. */
  predicate AppendRefuses(config: Config, buffered: nat, d: Direction, sequence: U32, payload: Bytes) {
    || OverBudget(config, buffered, payload)
    || |Drained(d.(contiguous := d.contiguous + payload, next := Add32(sequence, |payload|))).contiguous|
       > config.maxBytesPerDirection
  }

  /** Conflicts count, and the payload starts before the base or differs from what is held at some byte both have. */
  predicate Mismatches(config: Config, d: Direction, sequence: U32, payload: Bytes) {
    var o := SequenceDistance(sequence, d.base);
    && config.dropConflicting
    && (o < 0 || exists k :: 0 <= k < |payload| && o + k < |d.contiguous| && payload[k] != d.contiguous[o + k])
  }

  /** The verdict on an overlap, byte by byte. */
  lemma OverlapConflictsIff(config: Config, d: Direction, sequence: U32, payload: Bytes)
    ensures Overlap(config, d, sequence, payload) ==
            if Mismatches(config, d, sequence, payload) then ConflictingOverlap else Waiting
  {
    var o := SequenceDistance(sequence, d.base);
    if 0 <= o < |d.contiguous| {
      var overlap := Min(|payload|, |d.contiguous| - o);
      var ours, held := payload[..overlap], d.contiguous[o..o + overlap];
      if ours != held {
        var k :| 0 <= k < overlap && ours[k] != held[k];
        assert payload[k] != d.contiguous[o + k];
      } else {
        forall k | 0 <= k < |payload| && o + k < |d.contiguous| ensures payload[k] == d.contiguous[o + k] {
          assert ours[k] == held[k];
        }
      }
    }
  }

  /** The segment has to wait: it lies ahead of the next expected byte, or no start of the stream is known. */
  predicate MustWait(d: Direction, sequence: U32, payload: Bytes) {
    if d.baseKnown then SequenceDistance(sequence, d.next) > 0 else !IsStreamStart(payload)
  }

  /** When a payload is refused: queue cap and budget ahead of the next byte, direction cap and budget at it,
      conflicting overlap behind it, and for what sticks out of an overlap the same as at the next byte. */
  predicate Refuses(config: Config, buffered: nat, d: Direction, sequence: U32, payload: Bytes)
    requires |payload| < TWO_31
  {
    var b := Rebased(d, sequence);
    var ahead, end := SequenceDistance(sequence, b.next), SequenceDistance(Add32(sequence, |payload|), b.next);
    if payload == [] then false
    else if MustWait(d, sequence, payload) then QueueRefuses(config, buffered, d, sequence, payload)
    else if ahead >= 0 then AppendRefuses(config, buffered, b, sequence, payload)
    else if Mismatches(config, b, sequence, payload) || end <= 0 then Mismatches(config, b, sequence, payload)
    else
      TrimIsShorterThanPayload(sequence, b.next, |payload|);
      AppendRefuses(config, buffered, b, b.next, payload[-ahead..])
  }

  /** When it is refused as conflicting: with room in queue and budget another payload waits under its number,
      or it lies behind the next byte and mismatches. */
  predicate Conflicts(config: Config, buffered: nat, d: Direction, sequence: U32, payload: Bytes) {
    && payload != []
    && if MustWait(d, sequence, payload) then
         && |d.pending| < config.maxOutOfOrder && !OverBudget(config, buffered, payload)
         && Rivalled(d, sequence, payload)
       else
         d.baseKnown && SequenceDistance(sequence, d.next) < 0 && Mismatches(config, d, sequence, payload)
  }

  lemma QueueRefusedIff(config: Config, buffered: nat, d: Direction, sequence: U32, payload: Bytes)
    requires DistinctSequences(d.pending) && payload != []
    ensures var status := Queue(config, buffered, d, sequence, payload).status;
            && (status.Fatal() <==> QueueRefuses(config, buffered, d, sequence, payload))
            && (status == ConflictingOverlap <==>
                |d.pending| < config.maxOutOfOrder && !OverBudget(config, buffered, payload)
                && Rivalled(d, sequence, payload))
  {
    var i := FirstAt(d.pending, sequence);
    forall j | 0 <= j < |d.pending| && d.pending[j].sequence == sequence ensures j == i {
      FirstAtUnique(d.pending, j);
    }
  }

  lemma AppendRefusedIff(config: Config, buffered: nat, d: Direction, sequence: U32, payload: Bytes)
    requires payload != []
    ensures var status := Append(config, buffered, d, sequence, payload).status;
            && (status.Fatal() <==> AppendRefuses(config, buffered, d, sequence, payload))
            && (status == Ready || status == ResourceLimit)
  {
    var grown := d.(contiguous := d.contiguous + payload, next := Add32(sequence, |payload|));
    if |grown.contiguous| <= config.maxBytesPerDirection {
      DrainFits(config.maxBytesPerDirection, grown);
    }
  }

  /** A payload is refused exactly when the guards above say so, and called conflicting exactly when they do. */
  lemma RefusedIff(config: Config, buffered: nat, d: Direction, sequence: U32, payload: Bytes)
    requires |payload| < TWO_31 && DistinctSequences(d.pending)
    ensures var status := Add(config, buffered, d, sequence, payload).status;
            && (status.Fatal() <==> Refuses(config, buffered, d, sequence, payload))
            && (status == ConflictingOverlap <==> Conflicts(config, buffered, d, sequence, payload))
            && status != Disabled
  {
    hide Queue, Append, QueueRefuses, AppendRefuses, Overlap, Mismatches, Rivalled, OverBudget, IsStreamStart,
      SequenceDistance, Add32;
    var b := Rebased(d, sequence);
    ZeroDistance(sequence, b.next);
    OverlapConflictsIff(config, b, sequence, payload);
    var ahead, end := SequenceDistance(sequence, b.next), SequenceDistance(Add32(sequence, |payload|), b.next);
    if payload == [] {
    } else if MustWait(d, sequence, payload) {
      QueueRefusedIff(config, buffered, d, sequence, payload);
      QueueNotDisabled(config, buffered, d, sequence, payload);
    } else if ahead >= 0 {
      AppendRefusedIff(config, buffered, b, sequence, payload);
    } else if end > 0 {
      TrimIsShorterThanPayload(sequence, b.next, |payload|);
      AppendRefusedIff(config, buffered, b, b.next, payload[-ahead..]);
    }
  }

  lemma QueueNotDisabled(config: Config, buffered: nat, d: Direction, sequence: U32, payload: Bytes)
    ensures Queue(config, buffered, d, sequence, payload).status != Disabled
  {}

  /** A whole call: it is ignored exactly when reassembly is off or the packet is not TCP; it is turned away,
      with idle streams gone, exactly when the connection is new and the table full; otherwise its connection
      is erased exactly when the guards refuse the payload, and reported as conflicting exactly when it
      conflicts. */
  lemma InsertOutcome(config: Config, s: State, p: Segment)
    requires Accounted(config, s) && |p.payload| < TWO_31
    ensures var (s', r) := Inserted(config, s, p);
            var live := Purged(config, s, p.now);
            var key := KeyOf(p.meta);
            && (r.status == Disabled <==> !config.enabled || p.meta.protocol != Tcp)
            && (r.status == Disabled ==> s' == s && r.payload == [])
            && (config.enabled && p.meta.protocol == Tcp ==>
                  if key !in live.streams && |live.streams| >= config.maxStreams
                  then s' == live && r == Result(ResourceLimit, [])
                  else
                    var d := if key in live.streams then live.streams[key].At(DirectionOf(p.meta)) else EMPTY_DIRECTION;
                    && (r.status.Fatal() <==> Refuses(config, live.buffered, d, DataSequence(p.meta), p.payload))
                    && (r.status == ConflictingOverlap <==>
                        Conflicts(config, live.buffered, d, DataSequence(p.meta), p.payload))
                    && (key in s'.streams <==> !r.status.Fatal())
                    && (r.status.Fatal() ==> r.payload == [])
                    && (key in s'.streams ==>
                        s'.streams[key].lastSeen == p.now
                        && r.payload == s'.streams[key].At(DirectionOf(p.meta)).contiguous))
  {
    hide Add, KeyOf, DirectionOf, DataSequence, TotalBytes, Sub64, Refuses, Conflicts;
    if config.enabled && p.meta.protocol == Tcp {
      var live := Purged(config, s, p.now);
      PurgedAccounted(config, s, p.now);
      var d := StreamFor(live, p).At(DirectionOf(p.meta));
      RefusedIff(config, live.buffered, d, DataSequence(p.meta), p.payload);
    }
  }

  /** The payload starts behind the next expected byte of a known stream and differs from it at byte `k`. */
  predicate Contradicts(d: Direction, sequence: U32, payload: Bytes, k: nat) {
    var o := SequenceDistance(sequence, d.base);
    && d.baseKnown && SequenceDistance(sequence, d.next) < 0
    && k < |payload| && 0 <= o && o + k < |d.contiguous| && payload[k] != d.contiguous[o + k]
  }

  lemma ContradictionConflicts(config: Config, buffered: nat, d: Direction, sequence: U32, payload: Bytes, k: nat)
    requires config.dropConflicting && Contradicts(d, sequence, payload, k)
    ensures Conflicts(config, buffered, d, sequence, payload)
  {
    hide SequenceDistance;
  }

  /** A segment that contradicts what has been received takes its connection down. */
  lemma OverlapEvasionIsRefused(config: Config, s: State, p: Segment, k: nat)
    requires config.enabled && config.dropConflicting && p.meta.protocol == Tcp
    requires Accounted(config, s) && |p.payload| < TWO_31
    requires KeyOf(p.meta) in s.streams && Awake(config, s, KeyOf(p.meta), p.now)
    requires Contradicts(s.streams[KeyOf(p.meta)].At(DirectionOf(p.meta)), DataSequence(p.meta), p.payload, k)
    ensures Inserted(config, s, p).1 == Result(ConflictingOverlap, [])
    ensures KeyOf(p.meta) !in Inserted(config, s, p).0.streams
  {
    hide Inserted, KeyOf, DirectionOf, DataSequence, TotalBytes, Sub64, Refuses, Conflicts, Contradicts, Accounted;
    InsertOutcome(config, s, p);
    var live := Purged(config, s, p.now);
    assert live.streams[KeyOf(p.meta)] == s.streams[KeyOf(p.meta)];
    ContradictionConflicts(config, live.buffered, s.streams[KeyOf(p.meta)].At(DirectionOf(p.meta)),
                           DataSequence(p.meta), p.payload, k);
  }

  // ---------------------------------------------------------------- where it stops

  /** Segment `i` of the queue, offered again, is still ahead of the next expected byte. */
  ghost predicate StillAhead(d: Direction, i: nat) {
    && i < |d.pending| && 0 < |d.pending[i].payload| < TWO_31 && DistinctSequences(d.pending)
    && if d.baseKnown then SequenceDistance(d.pending[i].sequence, d.next) > 0 else !IsStreamStart(d.pending[i].payload)
  }

  /** A retransmission of a queued segment is charged against the queue and the budget before it is recognised. It is
      recognised, and changes nothing, exactly when there is room for one more such segment; otherwise it is
      refused as if it were new. */
  lemma RetransmissionRecognisedIff(config: Config, buffered: nat, d: Direction, i: nat)
    requires StillAhead(d, i)
    ensures var q := d.pending[i];
            Add(config, buffered, d, q.sequence, q.payload) ==
            Added(d, buffered, if |d.pending| < config.maxOutOfOrder && buffered + |q.payload| <= config.budget
                               then Waiting else ResourceLimit)
  {
    var q := d.pending[i];
    AddBeyond(config, buffered, d, q.sequence, q.payload);
    FirstAtUnique(d.pending, i);
  }

  /** At the level of `Insert`: with room the stream is only refreshed, without room it is erased. */
  lemma RetransmissionErasesIff(config: Config, s: State, p: Segment, i: nat)
    requires config.enabled && p.meta.protocol == Tcp && |p.payload| < TWO_31
    requires KeyOf(p.meta) in s.streams && Awake(config, s, KeyOf(p.meta), p.now)
    requires var d := s.streams[KeyOf(p.meta)].At(DirectionOf(p.meta));
             StillAhead(d, i) && d.pending[i] == Pending(DataSequence(p.meta), p.payload)
    ensures var key, live := KeyOf(p.meta), Purged(config, s, p.now);
            var stream := s.streams[key];
            var d := stream.At(DirectionOf(p.meta));
            var room := |d.pending| < config.maxOutOfOrder && live.buffered + |p.payload| <= config.budget;
            var (s', answer) := Inserted(config, s, p);
            if room then s' == State(live.streams[key := stream.(lastSeen := p.now)], live.buffered)
                         && answer == Result(Waiting, d.contiguous)
            else key !in s'.streams && answer == Result(ResourceLimit, [])
  {
    hide Add, KeyOf, DirectionOf, DataSequence, TotalBytes, StillAhead;
    var key, live := KeyOf(p.meta), Purged(config, s, p.now);
    assert key in live.streams && live.streams[key] == s.streams[key];
    RetransmissionRecognisedIff(config, live.buffered, s.streams[key].At(DirectionOf(p.meta)), i);
  }

  /** Serial distances between offsets of one stream. */
  lemma TailDistances(origin: U32, bytes: Bytes, a: nat, b: nat, e: nat)
    requires |bytes| < TWO_31 && a <= |bytes| && b <= e <= |bytes|
    ensures SequenceDistance(Add32(origin, b), Add32(origin, a)) == b as int - a
    ensures SequenceDistance(Add32(origin, b), origin) == b
    ensures SequenceDistance(Add32(Add32(origin, b), e - b), Add32(origin, a)) == e as int - a
  {
    OffsetOfAdd(origin, a);
    OffsetOfAdd(origin, b);
    OffsetOfAdd(origin, e);
    OffsetOfAdd(origin, 0);
    AddAssociates(origin, b, e - b);
    DistanceIsOffsetDifference(origin, Add32(origin, b), Add32(origin, a));
    DistanceIsOffsetDifference(origin, Add32(origin, b), origin);
    DistanceIsOffsetDifference(origin, Add32(origin, e), Add32(origin, a));
  }
}
