/** What the reassembler can be made to inspect of a cut stream when nothing is assumed about the segments: neither that
    the first looks like a stream start nor that later ones do not. */
module TcpWindows {
  import opened Machine
  import opened Packet
  import opened TcpReassembly
  import opened TcpAccounting
  import opened TcpOrder
  import opened TcpRuns

  // ---------------------------------------------------------------- one direction

  /** The bytes from segment `j` up to segment `m`. */
  function Window(c: Cut, j: nat, m: nat): Bytes
    requires c.Shaped() && j <= m <= c.Count()
  {
    BoundsOrdered(c, j, m);
    c.bytes[c.bounds[j]..c.bounds[m]]
  }

  /** The inspected bytes are a window that opens at a segment that looks like a stream start. */
  ghost predicate Opened(c: Cut, d: Direction, j: nat, m: nat)
    requires c.Shaped()
  {
    && j < m <= c.Count() && IsStreamStart(c.Part(j))
    && d.baseKnown && d.base == c.At(j) && d.next == c.At(m) && d.contiguous == Window(c, j, m)
  }

  ghost predicate QueuesParts(c: Cut, pending: seq<Pending>)
    requires c.Shaped()
  {
    forall x :: 0 <= x < |pending| ==> exists i: nat :: i < c.Count() && pending[x] == Queued(c, i)
  }

  ghost predicate OnWindows(c: Cut, d: Direction)
    requires c.Shaped()
  {
    && QueuesParts(c, d.pending)
    && if d.baseKnown then exists j: nat, m: nat :: Opened(c, d, j, m) else d.contiguous == []
  }

  lemma WindowGrows(c: Cut, j: nat, m: nat)
    requires c.Shaped() && j <= m < c.Count()
    ensures Window(c, j, m) + c.Part(m) == Window(c, j, m + 1)
    ensures Window(c, j, j) == []
  {
    BoundsOrdered(c, j, m);
    BoundsOrdered(c, m, m + 1);
  }

  lemma AbsorbWindow(c: Cut, d: Direction, j: nat, m: nat, x: nat)
    requires c.Shaped() && Opened(c, d, j, m) && QueuesParts(c, d.pending)
    requires x < |d.pending| && d.pending[x].sequence == d.next
    ensures m < c.Count() && Opened(c, Absorb(d, x), j, m + 1) && QueuesParts(c, Absorb(d, x).pending)
  {
    hide IsStreamStart;
    var i: nat :| i < c.Count() && d.pending[x] == Queued(c, i);
    PositionsDiffer(c, i, m);
    NextPosition(c, m);
    WindowGrows(c, j, m);
    hide Add32;
    var rest := Absorb(d, x).pending;
    forall y | 0 <= y < |rest| ensures exists i: nat :: i < c.Count() && rest[y] == Queued(c, i) {
      assert rest[y] == d.pending[if y < x then y else y + 1];
    }
  }

  lemma {:induction false} DrainWindow(c: Cut, limit: nat, d: Direction, j: nat, m: nat)
    requires c.Shaped() && Opened(c, d, j, m) && QueuesParts(c, d.pending)
    ensures OnWindows(c, Drain(limit, d).0) && Drain(limit, d).0.baseKnown && Drain(limit, d).0.base == d.base
    decreases |d.pending|
  {
    DrainOnce(limit, d);
    hide Drain, Absorb, IsStreamStart;
    var x := FirstAt(d.pending, d.next);
    if x < |d.pending| && |d.contiguous| + |d.pending[x].payload| <= limit {
      AbsorbWindow(c, d, j, m, x);
      AbsorbShrinks(d, x);
      DrainWindow(c, limit, Absorb(d, x), j, m + 1);
    }
  }

  lemma AbsorbShrinks(d: Direction, x: nat)
    requires x < |d.pending|
    ensures |Absorb(d, x).pending| < |d.pending| && Absorb(d, x).base == d.base
  {}

  lemma QueueWindow(config: Config, buffered: nat, c: Cut, d: Direction, i: nat)
    requires c.Shaped() && OnWindows(c, d) && i < c.Count()
    ensures OnWindows(c, Queue(config, buffered, d, c.At(i), c.Part(i)).direction)
    ensures var r := Queue(config, buffered, d, c.At(i), c.Part(i)).direction;
            r.base == d.base && r.baseKnown == d.baseKnown
  {
    hide IsStreamStart;
    var r := Queue(config, buffered, d, c.At(i), c.Part(i)).direction;
    forall x | 0 <= x < |r.pending| ensures exists k: nat :: k < c.Count() && r.pending[x] == Queued(c, k) {
      if x < |d.pending| {
        assert r.pending[x] == d.pending[x];
      } else {
        assert r.pending[x] == Queued(c, i);
      }
    }
    if d.baseKnown {
      var j: nat, m: nat :| Opened(c, d, j, m);
      assert Opened(c, r, j, m);
    }
  }

  /** Appending segment `m` to a window that ends there, or opening one with it. */
  lemma AppendWindow(config: Config, buffered: nat, c: Cut, d: Direction, j: nat, m: nat)
    requires c.Shaped() && j <= m < c.Count() && IsStreamStart(c.Part(j)) && QueuesParts(c, d.pending)
    requires d.baseKnown && d.base == c.At(j) && d.next == c.At(m) && d.contiguous == Window(c, j, m)
    ensures var a := Append(config, buffered, d, c.At(m), c.Part(m));
            !a.status.Fatal() ==> OnWindows(c, a.direction) && a.direction.baseKnown && a.direction.base == d.base
  {
    hide IsStreamStart, Drain;
    NextPosition(c, m);
    WindowGrows(c, j, m);
    hide Add32;
    var grown := d.(contiguous := d.contiguous + c.Part(m), next := Add32(c.At(m), |c.Part(m)|));
    assert Opened(c, grown, j, m + 1);
    DrainWindow(c, config.maxBytesPerDirection, grown, j, m + 1);
  }

  /** One segment of the cut, whatever has come before: if it is accepted, the direction still inspects
      nothing or a window; a base once chosen stays, and a new one is the position of the segment. */
  lemma AddKeepsWindows(config: Config, buffered: nat, c: Cut, d: Direction, i: nat)
    requires c.Shaped() && OnWindows(c, d) && i < c.Count() && |c.Part(i)| < TWO_31
    ensures var a := Add(config, buffered, d, c.At(i), c.Part(i));
            !a.status.Fatal() ==>
              && OnWindows(c, a.direction)
              && (d.baseKnown ==> a.direction.baseKnown && a.direction.base == d.base)
              && (!d.baseKnown && a.direction.baseKnown ==> a.direction.base == c.At(i))
  {
    hide IsStreamStart, SequenceDistance, Add32, Append, Queue, Overlap, OnWindows;
    NextPosition(c, i);
    ZeroDistance(c.At(i), c.At(i));
    QueueWindow(config, buffered, c, d, i);
    if !d.baseKnown {
      if IsStreamStart(c.Part(i)) {
        OpenWindow(config, buffered, c, d, i);
      }
    } else {
      var m := ExtendWindow(config, buffered, c, d, i);
      PositionsDiffer(c, i, m);
      PositionsDiffer(c, i + 1, m);
      if i < m {
        BoundsOrdered(c, i + 1, m);
        BoundsOrdered(c, i, i + 1);
      } else if i > m {
        BoundsOrdered(c, m, i);
      }
    }
  }

  lemma OpenWindow(config: Config, buffered: nat, c: Cut, d: Direction, i: nat)
    requires c.Shaped() && OnWindows(c, d) && i < c.Count() && !d.baseKnown && IsStreamStart(c.Part(i))
    ensures var a := Append(config, buffered, Rebased(d, c.At(i)), c.At(i), c.Part(i));
            !a.status.Fatal() ==> OnWindows(c, a.direction) && a.direction.baseKnown && a.direction.base == c.At(i)
  {
    hide IsStreamStart, Append;
    WindowGrows(c, i, i);
    AppendWindow(config, buffered, c, Rebased(d, c.At(i)), i, i);
  }

  lemma ExtendWindow(config: Config, buffered: nat, c: Cut, d: Direction, i: nat) returns (m: nat)
    requires c.Shaped() && OnWindows(c, d) && i < c.Count() && d.baseKnown
    ensures m <= c.Count() && d.next == c.At(m) && OnWindows(c, d)
    ensures i == m ==>
              var a := Append(config, buffered, d, c.At(i), c.Part(i));
              !a.status.Fatal() ==> OnWindows(c, a.direction) && a.direction.baseKnown && a.direction.base == d.base
  {
    hide IsStreamStart, Append;
    var j: nat, m': nat :| Opened(c, d, j, m');
    m := m';
    if i == m {
      AppendWindow(config, buffered, c, d, j, m);
    }
  }

  // ---------------------------------------------------------------- runs

  ghost predicate StateOnWindows(w: Watched, s: State)
    requires w.c.Shaped()
  {
    w.key in s.streams ==> OnWindows(w.c, s.streams[w.key].At(w.dir))
  }

  /** Nothing, or a window. */
  ghost predicate ShowsWindow(c: Cut, payload: Bytes)
    requires c.Shaped()
  {
    payload == [] ||
    exists j: nat, m: nat :: j < m <= c.Count() && IsStreamStart(c.Part(j)) && payload == Window(c, j, m)
  }

  lemma WindowsShow(c: Cut, d: Direction)
    requires c.Shaped() && OnWindows(c, d)
    ensures ShowsWindow(c, d.contiguous)
  {
    hide IsStreamStart;
    if d.baseKnown {
      var j: nat, m: nat :| Opened(c, d, j, m);
    }
  }

  lemma FreshOnWindows(c: Cut)
    requires c.Shaped()
    ensures OnWindows(c, EMPTY_DIRECTION)
  {}

  lemma DeliverKeepsWindows(config: Config, w: Watched, live: State, p: Segment, tag: Tag)
    requires w.c.Shaped() && Fits(w, p, tag) && StateOnWindows(w, live) && p.meta.protocol == Tcp
    ensures StateOnWindows(w, Delivered(config, live, p).0)
    ensures Concerns(w, p) && !Delivered(config, live, p).1.status.Fatal() ==>
              ShowsWindow(w.c, Delivered(config, live, p).1.payload)
  {
    FreshOnWindows(w.c);
    hide KeyOf, DirectionOf, DataSequence, TotalBytes, OnWindows, ShowsWindow;
    if OfConnection(w, p) && Admits(config, live, p) {
      var d := StreamFor(live, p).At(w.dir);
      assert OnWindows(w.c, d);
      if tag.Ours? {
        hide Add;
        AddKeepsWindows(config, live.buffered, w.c, d, tag.i);
      }
      var a := AddedTo(config, live, p);
      if Concerns(w, p) && !a.status.Fatal() {
        WindowsShow(w.c, a.direction);
      }
    } else if !OfConnection(w, p) {
      DeliverForeign(config, live, w.key, p);
    }
  }

  lemma CallKeepsWindows(config: Config, w: Watched, s: State, p: Segment, tag: Tag)
    requires w.c.Shaped() && Fits(w, p, tag) && StateOnWindows(w, s)
    ensures StateOnWindows(w, Inserted(config, s, p).0)
    ensures Concerns(w, p) && !Inserted(config, s, p).1.status.Fatal() ==>
              ShowsWindow(w.c, Inserted(config, s, p).1.payload)
  {
    hide Fits, Delivered, OnWindows, ShowsWindow, Sub64, TotalBytes;
    FitsSize(w, p, tag);
    if config.enabled && p.meta.protocol == Tcp {
      DeliverKeepsWindows(config, w, Purged(config, s, p.now), p, tag);
    } else {
      assert ShowsWindow(w.c, []) by { NothingShown(w.c); }
    }
  }

  lemma NothingShown(c: Cut)
    requires c.Shaped()
    ensures ShowsWindow(c, [])
  {}

  /** Safety over all runs, with no assumption on room, time, order or what the segments look like: whatever
      is answered in the watched direction is nothing or a window that opens at a segment that looks like a
      stream start. */
  lemma {:induction false} AnswersAreWindows(config: Config, w: Watched, s: State, run: seq<Segment>, tags: seq<Tag>)
    requires w.c.Shaped() && Schedule(w, run, tags) && StateOnWindows(w, s)
    requires forall p | p in run :: |p.payload| < TWO_31
    ensures StateOnWindows(w, Run(config, s, run)) && |Answers(config, s, run)| == |run|
    ensures forall j :: 0 <= j < |run| && Concerns(w, run[j]) && !Answers(config, s, run)[j].status.Fatal() ==>
                          ShowsWindow(w.c, Answers(config, s, run)[j].payload)
    decreases |run|
  {
    hide Inserted, StateOnWindows, ShowsWindow, Concerns, Fits;
    if run != [] {
      TailScheduled(w, run, tags);
      CallKeepsWindows(config, w, s, run[0], tags[0]);
      AnswersAreWindows(config, w, Inserted(config, s, run[0]).0, run[1..], tags[1..]);
    }
  }

  // ---------------------------------------------------------------- chosen deliveries

  const NOTHING: State := State(map[], 0)

  function Watching(c: Cut, meta: Metadata): Watched {
    Watched(c, KeyOf(meta), DirectionOf(meta))
  }

  function SegmentAt(c: Cut, meta: Metadata, i: nat): Segment
    requires c.Shaped() && i < c.Count()
  {
    Segment(meta.(tcpSequence := c.At(i), tcpFlags := 0), c.Part(i), 0)
  }

  ghost predicate InCut(c: Cut, order: seq<nat>)
    requires c.Shaped()
  {
    forall k :: 0 <= k < |order| ==> order[k] < c.Count()
  }

  /** The segments in the given order, one per packet. */
  function Delivery(c: Cut, meta: Metadata, order: seq<nat>): seq<Segment>
    requires c.Shaped() && InCut(c, order)
  {
    seq(|order|, k requires 0 <= k < |order| => SegmentAt(c, meta, order[k]))
  }

  function DeliveryTags(order: seq<nat>): seq<Tag> {
    seq(|order|, k requires 0 <= k < |order| => Ours(order[k]))
  }

  /** Enough for one stream delivered once. */
  ghost predicate Roomy(config: Config, c: Cut)
    requires c.Shaped()
  {
    && config.enabled && config.maxStreams >= 1
    && |c.bytes| <= config.maxBytesPerDirection && |c.bytes| <= config.budget && c.Count() <= config.maxOutOfOrder + 1
  }

  lemma SegmentFits(c: Cut, meta: Metadata, i: nat)
    requires c.Shaped() && i < c.Count() && meta.protocol == Tcp
    ensures var p := SegmentAt(c, meta, i);
            && Carries(Watching(c, meta), p, i) && Fits(Watching(c, meta), p, Ours(i))
            && |p.payload| < TWO_31 && KeyOf(p.meta) == KeyOf(meta) && p.now == 0 && p.meta.protocol == Tcp
            && DirectionOf(p.meta) == DirectionOf(meta) && DataSequence(p.meta) == c.At(i) && p.payload == c.Part(i)
  {
    hide EndpointLess;
    BoundsOrdered(c, i, i + 1);
    var p := SegmentAt(c, meta, i);
    assert Source(p.meta) == Source(meta) && Destination(p.meta) == Destination(meta);
    assert DataSequence(p.meta) == c.At(i);
  }

  lemma DeliveryScheduled(c: Cut, meta: Metadata, order: seq<nat>)
    requires c.Shaped() && InCut(c, order) && meta.protocol == Tcp
    ensures Schedule(Watching(c, meta), Delivery(c, meta, order), DeliveryTags(order))
    ensures forall p | p in Delivery(c, meta, order) ::
              |p.payload| < TWO_31 && KeyOf(p.meta) == KeyOf(meta) && p.now == 0 && p.meta.protocol == Tcp
  {
    hide KeyOf, DirectionOf, Fits, SegmentAt;
    forall k | 0 <= k < |order|
      ensures Fits(Watching(c, meta), Delivery(c, meta, order)[k], DeliveryTags(order)[k])
      ensures var p := Delivery(c, meta, order)[k];
              |p.payload| < TWO_31 && KeyOf(p.meta) == KeyOf(meta) && p.now == 0 && p.meta.protocol == Tcp
    {
      SegmentFits(c, meta, order[k]);
    }
  }

  /** The reassembler when exactly the window from `j` to `m` has been delivered in order. */
  function AfterWindow(c: Cut, meta: Metadata, j: nat, m: nat): State
    requires c.Shaped() && j < m <= c.Count()
  {
    var stream := Stream(EMPTY_DIRECTION, EMPTY_DIRECTION, 0).With(DirectionOf(meta), Holding(c, j, m));
    State(map[KeyOf(meta) := stream], |Window(c, j, m)|)
  }

  lemma SingleStream(key: StreamKey, stream: Stream)
    ensures TotalBytes(map[key := stream]) == StreamBytes(stream)
  {
    hide StreamBytes;
    TotalWithout(map[key := stream], key);
    assert map[key := stream] - {key} == map[];
  }

  lemma NoStreams()
    ensures TotalBytes(map[]) == 0
  {}

  /** A direction that holds exactly a window. */
  function Holding(c: Cut, j: nat, m: nat): Direction
    requires c.Shaped() && j < m <= c.Count()
  {
    Direction(true, c.At(j), c.At(m), Window(c, j, m), [])
  }

  lemma FirstAdded(config: Config, c: Cut, j: nat)
    requires c.Shaped() && j < c.Count() && Roomy(config, c) && IsStreamStart(c.Part(j)) && |c.Part(j)| < TWO_31
    ensures Add(config, 0, EMPTY_DIRECTION, c.At(j), c.Part(j)) ==
            Added(Holding(c, j, j + 1), |Window(c, j, j + 1)|, Ready)
  {
    hide Add, IsStreamStart, Add32;
    NextPosition(c, j);
    WindowGrows(c, j, j);
    BoundsOrdered(c, j, j + 1);
    AddAtNext(config, 0, EMPTY_DIRECTION, c.At(j), c.Part(j));
  }

  lemma NextAdded(config: Config, c: Cut, j: nat, m: nat)
    requires c.Shaped() && j < m < c.Count() && Roomy(config, c) && |c.Part(m)| < TWO_31
    ensures Add(config, |Window(c, j, m)|, Holding(c, j, m), c.At(m), c.Part(m)) ==
            Added(Holding(c, j, m + 1), |Window(c, j, m + 1)|, Ready)
  {
    hide Add, IsStreamStart, Add32;
    NextPosition(c, m);
    WindowGrows(c, j, m);
    BoundsOrdered(c, m, m + 1);
    BoundsOrdered(c, j, m);
    AddAtNext(config, |Window(c, j, m)|, Holding(c, j, m), c.At(m), c.Part(m));
  }

  lemma NothingPurged(config: Config, now: U64)
    ensures Purged(config, NOTHING, now) == NOTHING
  {
    NoStreams();
    assert Live(config, map[], now) == map[];
  }

  lemma WindowPurged(config: Config, c: Cut, meta: Metadata, j: nat, m: nat)
    requires c.Shaped() && j < m <= c.Count()
    ensures Purged(config, AfterWindow(c, meta, j, m), 0) == AfterWindow(c, meta, j, m)
  {
    hide KeyOf, DirectionOf, TotalBytes;
    var s, key := AfterWindow(c, meta, j, m), KeyOf(meta);
    SingleStream(key, s.streams[key]);
    assert Live(config, s.streams, 0) == s.streams;
  }

  /** With room, a start-like segment opens its window in an empty reassembler. */
  lemma DeliverFirst(config: Config, c: Cut, meta: Metadata, j: nat)
    requires c.Shaped() && j < c.Count() && meta.protocol == Tcp && Roomy(config, c) && IsStreamStart(c.Part(j))
    ensures |SegmentAt(c, meta, j).payload| < TWO_31
    ensures Inserted(config, NOTHING, SegmentAt(c, meta, j)) ==
            (AfterWindow(c, meta, j, j + 1), Result(Ready, Window(c, j, j + 1)))
  {
    hide Add, IsStreamStart, KeyOf, DirectionOf, DataSequence, SegmentAt, Purged;
    SegmentFits(c, meta, j);
    FirstAdded(config, c, j);
    NothingPurged(config, 0);
    hide Window;
  }

  /** With room, the next segment extends it. */
  lemma DeliverNext(config: Config, c: Cut, meta: Metadata, j: nat, m: nat)
    requires c.Shaped() && j < m < c.Count() && meta.protocol == Tcp && Roomy(config, c)
    ensures |SegmentAt(c, meta, m).payload| < TWO_31
    ensures Inserted(config, AfterWindow(c, meta, j, m), SegmentAt(c, meta, m)) ==
            (AfterWindow(c, meta, j, m + 1), Result(Ready, Window(c, j, m + 1)))
  {
    hide Add, IsStreamStart, KeyOf, DirectionOf, DataSequence, SegmentAt, Purged;
    SegmentFits(c, meta, m);
    NextAdded(config, c, j, m);
    WindowPurged(config, c, meta, j, m);
    hide Window;
    var p, s := SegmentAt(c, meta, m), AfterWindow(c, meta, j, m);
    assert s.streams[KeyOf(meta) := Stored(StreamFor(s, p), p, Holding(c, j, m + 1))] ==
           AfterWindow(c, meta, j, m + 1).streams;
  }

  /** The numbers from `j` up to `m`. */
  function Ascending(j: nat, m: nat): seq<nat>
    requires j <= m
  {
    seq(m - j, k => j + k)
  }

  lemma DeliveryEnds(c: Cut, meta: Metadata, j: nat, m: nat)
    requires c.Shaped() && j < m <= c.Count()
    ensures Delivery(c, meta, Ascending(j, m)) == Delivery(c, meta, Ascending(j, m - 1)) + [SegmentAt(c, meta, m - 1)]
    ensures m == j + 1 ==> Delivery(c, meta, Ascending(j, m)) == [SegmentAt(c, meta, j)]
  {
    hide SegmentAt;
  }

  /** Every window that opens at a start-like segment is inspected when its segments arrive in order. */
  lemma {:induction false} WindowIsReached(config: Config, c: Cut, meta: Metadata, j: nat, m: nat)
    requires c.Shaped() && j < m <= c.Count() && meta.protocol == Tcp && Roomy(config, c) && IsStreamStart(c.Part(j))
    ensures forall p | p in Delivery(c, meta, Ascending(j, m)) :: |p.payload| < TWO_31
    ensures Run(config, NOTHING, Delivery(c, meta, Ascending(j, m))) == AfterWindow(c, meta, j, m)
    ensures var answers := Answers(config, NOTHING, Delivery(c, meta, Ascending(j, m)));
            |answers| == m - j && answers[m - j - 1] == Result(Ready, Window(c, j, m))
    decreases m
  {
    hide IsStreamStart, KeyOf, SegmentAt, Inserted, Roomy, Delivery, Run, Answers, AfterWindow, Window;
    DeliveryScheduled(c, meta, Ascending(j, m));
    DeliveryEnds(c, meta, j, m);
    if m == j + 1 {
      DeliverFirst(config, c, meta, j);
      RunOne(config, NOTHING, Delivery(c, meta, Ascending(j, m)));
    } else {
      WindowIsReached(config, c, meta, j, m - 1);
      DeliverNext(config, c, meta, j, m - 1);
      RunSnoc(config, NOTHING, Delivery(c, meta, Ascending(j, m - 1)), SegmentAt(c, meta, m - 1));
    }
  }

  lemma RunOne(config: Config, s: State, run: seq<Segment>)
    requires |run| == 1 && |run[0].payload| < TWO_31
    ensures Run(config, s, run) == Inserted(config, s, run[0]).0
    ensures Answers(config, s, run) == [Inserted(config, s, run[0]).1]
  {
    hide Inserted;
    assert run[1..] == [];
  }

  lemma {:induction false} RunSnoc(config: Config, s: State, run: seq<Segment>, p: Segment)
    requires (forall q | q in run :: |q.payload| < TWO_31) && |p.payload| < TWO_31
    ensures forall q | q in run + [p] :: |q.payload| < TWO_31
    ensures Run(config, s, run + [p]) == Inserted(config, Run(config, s, run), p).0
    ensures Answers(config, s, run + [p]) == Answers(config, s, run) + [Inserted(config, Run(config, s, run), p).1]
    decreases |run|
  {
    hide Inserted;
    if run == [] {
      assert [] + [p] == [p];
      RunOne(config, s, [p]);
    } else {
      assert (run + [p])[1..] == run[1..] + [p];
      RunSnoc(config, Inserted(config, s, run[0]).0, run[1..], p);
    }
  }

  // ---------------------------------------------------------------- names

  /** Nothing is named but what the whole stream names. */
  predicate Agrees(name: Bytes -> Option<Bytes>, payload: Bytes, whole: Bytes) {
    name(payload).None? || name(payload) == name(whole)
  }

  /** Over all runs from all states that have seen nothing of the stream, with no assumption on room, time or order: no
      answer in the watched direction names anything but what the whole stream names. */
  ghost predicate NamesOnly(config: Config, w: Watched, name: Bytes -> Option<Bytes>)
    requires w.c.Shaped()
  {
    forall s, run, tags, j: nat | Schedule(w, run, tags) && Untouched(w, s) && Small(run) ::
      Answered(w, run, Answers(config, s, run), j) ==> Agrees(name, Answers(config, s, run)[j].payload, w.c.bytes)
  }

  predicate Small(run: seq<Segment>) {
    forall p | p in run :: |p.payload| < TWO_31
  }

  /** Every window that opens at a start-like segment names nothing, or what the whole stream names. */
  ghost predicate WindowsAgree(c: Cut, name: Bytes -> Option<Bytes>)
    requires c.Shaped()
  {
    forall j: nat, m: nat | j < m <= c.Count() && IsStreamStart(c.Part(j)) :: Agrees(name, Window(c, j, m), c.bytes)
  }

  /** Exactly when inspection behind the reassembler is independent of segmentation, for any way of extracting
      a name and any cut: every window that opens at a start-like segment must agree with the whole stream. */
  lemma NamesOnlyIff(config: Config, c: Cut, meta: Metadata, name: Bytes -> Option<Bytes>)
    requires c.Shaped() && meta.protocol == Tcp && Roomy(config, c) && name([]).None?
    ensures NamesOnly(config, Watching(c, meta), name) <==> WindowsAgree(c, name)
  {
    hide IsStreamStart, KeyOf, DirectionOf, Answers, Schedule, Run;
    var w := Watching(c, meta);
    if WindowsAgree(c, name) {
      forall s, run, tags, j: nat
        | Schedule(w, run, tags) && Untouched(w, s) && Small(run) && Answered(w, run, Answers(config, s, run), j)
        ensures Agrees(name, Answers(config, s, run)[j].payload, c.bytes)
      {
        UntouchedOnWindows(w, s);
        AnswersAreWindows(config, w, s, run, tags);
      }
    }
    if NamesOnly(config, w, name) {
      forall j: nat, m: nat | j < m <= c.Count() && IsStreamStart(c.Part(j))
        ensures Agrees(name, Window(c, j, m), c.bytes)
      {
        WindowAnswered(config, c, meta, j, m);
        var run, tags := Delivery(c, meta, Ascending(j, m)), DeliveryTags(Ascending(j, m));
        assert Schedule(w, run, tags) && Untouched(w, NOTHING) && Small(run);
        assert Answered(w, run, Answers(config, NOTHING, run), m - j - 1);
      }
    }
  }

  lemma UntouchedOnWindows(w: Watched, s: State)
    requires w.c.Shaped() && Untouched(w, s)
    ensures StateOnWindows(w, s)
  {
    FreshOnWindows(w.c);
  }

  lemma WindowAnswered(config: Config, c: Cut, meta: Metadata, j: nat, m: nat)
    requires c.Shaped() && j < m <= c.Count() && meta.protocol == Tcp && Roomy(config, c) && IsStreamStart(c.Part(j))
    ensures var run, tags := Delivery(c, meta, Ascending(j, m)), DeliveryTags(Ascending(j, m));
            && Schedule(Watching(c, meta), run, tags) && Small(run)
            && Answered(Watching(c, meta), run, Answers(config, NOTHING, run), m - j - 1)
            && Answers(config, NOTHING, run)[m - j - 1].payload == Window(c, j, m)
  {
    hide IsStreamStart, Answers, Schedule, Run, Roomy;
    WindowIsReached(config, c, meta, j, m);
    DeliveryScheduled(c, meta, Ascending(j, m));
    SegmentFits(c, meta, m - 1);
    assert Delivery(c, meta, Ascending(j, m))[m - j - 1] == SegmentAt(c, meta, m - 1);
  }

  // ---------------------------------------------------------------- complete deliveries

  /** Every segment is delivered exactly once and nothing else happens. */
  ghost predicate CompleteRun(config: Config, w: Watched, run: seq<Segment>, tags: seq<Tag>)
    requires w.c.Shaped()
  {
    && Schedule(w, run, tags) && (forall j :: 0 <= j < |tags| ==> tags[j].Ours?)
    && NoRepeat({}, tags) && AllArrive(w, tags) && Timely(config, w, None, run) && Small(run)
  }

  /** Whatever the order, the stream is reassembled completely. */
  ghost predicate AlwaysWhole(config: Config, w: Watched)
    requires w.c.Shaped()
  {
    forall run, tags | CompleteRun(config, w, run, tags) :: Whole(w, Run(config, NOTHING, run))
  }

  lemma {:induction false} OursTolerated(config: Config, s: State, run: seq<Segment>, tags: seq<Tag>)
    requires |run| == |tags| && forall j :: 0 <= j < |run| ==> |run[j].payload| < TWO_31 && tags[j].Ours?
    ensures Tolerated(config, s, run, tags) && OtherBytes(run, tags) == 0
    decreases |run|
  {
    hide Inserted;
    if run != [] {
      OursTolerated(config, Inserted(config, s, run[0]).0, run[1..], tags[1..]);
    }
  }

  lemma CompleteIsWhole(config: Config, w: Watched, run: seq<Segment>, tags: seq<Tag>)
    requires w.c.Valid() && Roomy(config, w.c) && CompleteRun(config, w, run, tags)
    ensures Whole(w, Run(config, NOTHING, run))
  {
    hide IsStreamStart, Run, Whole, Schedule, Timely, NoRepeat, KeyOf, Tolerated, AllArrive, Provisioned, Begins, Roomy;
    AllSmall(w, run, tags);
    OursTolerated(config, NOTHING, run, tags);
    CompleteFits(config, w, run, tags);
    ProvisionedIndependence(config, w, NOTHING, run, tags, None, false);
  }

  lemma CompleteFits(config: Config, w: Watched, run: seq<Segment>, tags: seq<Tag>)
    requires w.c.Valid() && Roomy(config, w.c) && CompleteRun(config, w, run, tags)
    requires OtherBytes(run, tags) == 0
    ensures Provisioned(config, w, NOTHING, {}, run, tags, false) && Begins(config, w, NOTHING, run, tags, None)
  {
    OneConnection(w, run, tags);
    NoStreams();
    WeightOfNothing(w.c, w.c.Count());
    hide IsStreamStart, Schedule, Timely, NoRepeat, OtherBytes, KeyOf, TotalBytes, Weight, AllArrive;
  }

  lemma AllSmall(w: Watched, run: seq<Segment>, tags: seq<Tag>)
    requires w.c.Shaped() && Schedule(w, run, tags)
    ensures |run| == |tags| && forall j :: 0 <= j < |run| ==> |run[j].payload| < TWO_31
  {}

  lemma OneConnection(w: Watched, run: seq<Segment>, tags: seq<Tag>)
    requires w.c.Shaped() && Schedule(w, run, tags) && forall j :: 0 <= j < |tags| ==> tags[j].Ours?
    ensures Connections(w, NOTHING, run) == {w.key}
  {
    hide KeyOf, DirectionOf, DataSequence;
    forall p | p in run ensures KeyOf(p.meta) == w.key {
      var j :| 0 <= j < |run| && run[j] == p;
      assert Fits(w, run[j], tags[j]);
    }
  }

  // ---------------------------------------------------------------- and when they are not whole

  lemma {:induction false} DistinctNoRepeat(seen: set<nat>, order: seq<nat>)
    requires forall i, j :: 0 <= i < j < |order| ==> order[i] != order[j]
    requires forall i :: 0 <= i < |order| ==> order[i] !in seen
    ensures NoRepeat(seen, DeliveryTags(order))
    decreases |order|
  {
    if order != [] {
      assert DeliveryTags(order)[1..] == DeliveryTags(order[1..]);
      DistinctNoRepeat(seen + {order[0]}, order[1..]);
    }
  }

  lemma {:induction false} NoTimePasses(config: Config, w: Watched, last: Option<U64>, run: seq<Segment>)
    requires (last.Some? ==> last.value == 0) && forall p | p in run :: p.now == 0
    ensures Timely(config, w, last, run)
    decreases |run|
  {
    hide OfConnection;
    if run != [] {
      NoTimePasses(config, w, LastWith(w, last, run[0]), run[1..]);
    }
  }

  /** Any arrangement of all segments is a complete run. */
  lemma DeliveryIsComplete(config: Config, c: Cut, meta: Metadata, order: seq<nat>)
    requires c.Shaped() && InCut(c, order) && meta.protocol == Tcp
    requires (forall i, j :: 0 <= i < j < |order| ==> order[i] != order[j])
    requires forall i :: 0 <= i < c.Count() ==> i in order
    ensures CompleteRun(config, Watching(c, meta), Delivery(c, meta, order), DeliveryTags(order))
  {
    hide KeyOf, DirectionOf, Schedule, SegmentAt, NoRepeat, Timely;
    DeliveryScheduled(c, meta, order);
    DistinctNoRepeat({}, order);
    NoTimePasses(config, Watching(c, meta), None, Delivery(c, meta, order));
    forall i | 0 <= i < c.Count() ensures Ours(i) in DeliveryTags(order) {
      assert i in order;
      var k :| 0 <= k < |order| && order[k] == i;
      assert DeliveryTags(order)[k] == Ours(i);
    }
  }

  /** The window, if any, does not open at the beginning of the stream. */
  ghost predicate PastOrigin(w: Watched, s: State)
    requires w.c.Shaped()
  {
    && StateOnWindows(w, s)
    && (w.key in s.streams && s.streams[w.key].At(w.dir).baseKnown ==> s.streams[w.key].At(w.dir).base != w.c.At(0))
  }

  /** The base is known and the stream is not idle. */
  ghost predicate BaseSet(config: Config, w: Watched, s: State, now: U64) {
    && w.key in s.streams && s.streams[w.key].At(w.dir).baseKnown && !Expired(config, s.streams[w.key], now)
  }

  lemma CallKeepsPastOrigin(config: Config, w: Watched, s: State, p: Segment, i: nat)
    requires w.c.Shaped() && Carries(w, p, i) && |p.payload| < TWO_31 && PastOrigin(w, s)
    requires i > 0 || BaseSet(config, w, s, p.now)
    ensures PastOrigin(w, Inserted(config, s, p).0)
  {
    CallKeepsWindows(config, w, s, p, Ours(i));
    FreshOnWindows(w.c);
    hide KeyOf, DirectionOf, DataSequence, TotalBytes, OnWindows, Add, Sub64, Add32;
    var live := Purged(config, s, p.now);
    if config.enabled && Admits(config, live, p) {
      var d := StreamFor(live, p).At(w.dir);
      assert OnWindows(w.c, d);
      AddKeepsWindows(config, live.buffered, w.c, d, i);
      PositionsDiffer(w.c, i, 0);
    }
  }

  lemma {:induction false} RunKeepsPastOrigin(config: Config, c: Cut, meta: Metadata, s: State, order: seq<nat>)
    requires c.Shaped() && InCut(c, order) && meta.protocol == Tcp && PastOrigin(Watching(c, meta), s)
    requires forall k :: 0 <= k < |order| ==> order[k] > 0
    ensures Small(Delivery(c, meta, order)) && PastOrigin(Watching(c, meta), Run(config, s, Delivery(c, meta, order)))
    decreases |order|
  {
    hide PastOrigin, Inserted, KeyOf, DirectionOf, SegmentAt;
    DeliveryScheduled(c, meta, order);
    if order != [] {
      SegmentFits(c, meta, order[0]);
      CallKeepsPastOrigin(config, Watching(c, meta), s, SegmentAt(c, meta, order[0]), order[0]);
      assert Delivery(c, meta, order)[1..] == Delivery(c, meta, order[1..]);
      RunKeepsPastOrigin(config, c, meta, Inserted(config, s, SegmentAt(c, meta, order[0])).0, order[1..]);
    }
  }

  lemma PastOriginIsNotWhole(w: Watched, s: State)
    requires w.c.Shaped() && PastOrigin(w, s)
    ensures !Whole(w, s)
  {
    hide IsStreamStart, Add32;
    if w.key in s.streams {
      var d := s.streams[w.key].At(w.dir);
      if d.baseKnown {
        var j: nat, m: nat :| Opened(w.c, d, j, m);
        BoundsOrdered(w.c, 0, j);
        BoundsOrdered(w.c, j, m);
      }
    }
  }

  /** A later start-like segment delivered first, then the first one: the window never opens at the beginning. */
  lemma LaterStartFirst(config: Config, c: Cut, meta: Metadata, j: nat, rest: seq<nat>)
    requires c.Shaped() && meta.protocol == Tcp && Roomy(config, c) && 0 < j < c.Count() && IsStreamStart(c.Part(j))
    requires InCut(c, rest) && forall k :: 0 <= k < |rest| ==> rest[k] > 0
    ensures InCut(c, [j, 0] + rest) && Small(Delivery(c, meta, [j, 0] + rest))
    ensures PastOrigin(Watching(c, meta), Run(config, NOTHING, Delivery(c, meta, [j, 0] + rest)))
  {
    hide IsStreamStart, KeyOf, DirectionOf, SegmentAt, Inserted, PastOrigin, Roomy, AfterWindow, BaseSet;
    var w, order := Watching(c, meta), [j, 0] + rest;
    DeliveryScheduled(c, meta, order);
    SegmentFits(c, meta, 0);
    DeliverFirst(config, c, meta, j);
    var s1 := AfterWindow(c, meta, j, j + 1);
    OpenedPastOrigin(config, c, meta, j);
    CallKeepsPastOrigin(config, w, s1, SegmentAt(c, meta, 0), 0);
    var s2 := Inserted(config, s1, SegmentAt(c, meta, 0)).0;
    RunKeepsPastOrigin(config, c, meta, s2, rest);
    var run := Delivery(c, meta, order);
    assert run[0] == SegmentAt(c, meta, j) && run[1..][0] == SegmentAt(c, meta, 0);
    assert run[1..][1..] == Delivery(c, meta, rest);
    RunTwo(config, NOTHING, run);
  }

  lemma RunTwo(config: Config, s: State, run: seq<Segment>)
    requires |run| >= 2 && Small(run)
    ensures var s1 := Inserted(config, s, run[0]).0;
            Run(config, s, run) == Run(config, Inserted(config, s1, run[1..][0]).0, run[1..][1..])
  {
    hide Inserted;
  }

  lemma LaterStartIsNotWhole(config: Config, c: Cut, meta: Metadata, j: nat)
    requires c.Shaped() && meta.protocol == Tcp && Roomy(config, c) && 0 < j < c.Count() && IsStreamStart(c.Part(j))
    ensures !AlwaysWhole(config, Watching(c, meta))
  {
    hide IsStreamStart, KeyOf, DirectionOf, SegmentAt, PastOrigin, Roomy, Run, CompleteRun;
    var rest := Ascending(1, j) + Ascending(j + 1, c.Count());
    Arranged(c, j);
    DeliveryIsComplete(config, c, meta, [j, 0] + rest);
    LaterStartFirst(config, c, meta, j, rest);
    PastOriginIsNotWhole(Watching(c, meta), Run(config, NOTHING, Delivery(c, meta, [j, 0] + rest)));
  }

  lemma Arranged(c: Cut, j: nat)
    requires c.Shaped() && 0 < j < c.Count()
    ensures var order := [j, 0] + (Ascending(1, j) + Ascending(j + 1, c.Count()));
            && InCut(c, order) && (forall a, b :: 0 <= a < b < |order| ==> order[a] != order[b])
            && forall i :: 0 <= i < c.Count() ==> i in order
  {
    var order := [j, 0] + (Ascending(1, j) + Ascending(j + 1, c.Count()));
    forall i | 0 <= i < c.Count() ensures i in order {
      var k := if i == j then 0 else if i == 0 then 1 else if i < j then 1 + i else i;
      assert order[k] == i;
    }
  }

  lemma OpenedPastOrigin(config: Config, c: Cut, meta: Metadata, j: nat)
    requires c.Shaped() && 0 < j < c.Count() && IsStreamStart(c.Part(j))
    ensures PastOrigin(Watching(c, meta), AfterWindow(c, meta, j, j + 1))
    ensures BaseSet(config, Watching(c, meta), AfterWindow(c, meta, j, j + 1), 0)
  {
    hide IsStreamStart, KeyOf, DirectionOf;
    PositionsDiffer(c, j, 0);
    hide Add32;
    var s, key := AfterWindow(c, meta, j, j + 1), KeyOf(meta);
    assert Opened(c, s.streams[key].At(DirectionOf(meta)), j, j + 1);
  }

  /** No segment looks like a start: nothing is ever inspected. */
  lemma NoStartIsNotWhole(config: Config, c: Cut, meta: Metadata)
    requires c.Shaped() && meta.protocol == Tcp && forall i :: 0 <= i < c.Count() ==> !IsStreamStart(c.Part(i))
    ensures !AlwaysWhole(config, Watching(c, meta))
  {
    hide IsStreamStart, KeyOf, DirectionOf, SegmentAt, CompleteRun, Answers, Run;
    var order := Ascending(0, c.Count());
    forall i | 0 <= i < c.Count() ensures i in order {
      assert order[i] == i;
    }
    DeliveryIsComplete(config, c, meta, order);
    var w, run, tags := Watching(c, meta), Delivery(c, meta, order), DeliveryTags(order);
    DeliveryScheduled(c, meta, order);
    AnswersAreWindows(config, w, NOTHING, run, tags);
    UnopenedIsNotWhole(w, Run(config, NOTHING, run));
  }

  lemma UnopenedIsNotWhole(w: Watched, s: State)
    requires w.c.Shaped() && StateOnWindows(w, s) && forall i :: 0 <= i < w.c.Count() ==> !IsStreamStart(w.c.Part(i))
    ensures !Whole(w, s)
  {
    hide IsStreamStart;
    BoundsOrdered(w.c, 0, 1);
  }

  /** Exactly which cuts are reassembled completely whatever the order of their segments: those whose first
      segment looks like a stream start and whose later ones do not. */
  lemma WholeIffValid(config: Config, c: Cut, meta: Metadata)
    requires c.Shaped() && meta.protocol == Tcp && Roomy(config, c)
    ensures AlwaysWhole(config, Watching(c, meta)) <==> c.Valid()
  {
    hide IsStreamStart, KeyOf, DirectionOf, Schedule, NoRepeat, Timely, Whole, Run, Roomy;
    if c.Valid() {
      forall run, tags | CompleteRun(config, Watching(c, meta), run, tags)
        ensures Whole(Watching(c, meta), Run(config, NOTHING, run))
      {
        CompleteIsWhole(config, Watching(c, meta), run, tags);
      }
    } else if j :| 0 < j < c.Count() && IsStreamStart(c.Part(j)) {
      LaterStartIsNotWhole(config, c, meta, j);
    } else {
      NoStartIsNotWhole(config, c, meta);
    }
  }

  // ---------------------------------------------------------------- nothing recognised

  ghost predicate Unopened(w: Watched, s: State) {
    w.key in s.streams ==> !s.streams[w.key].At(w.dir).baseKnown && s.streams[w.key].At(w.dir).contiguous == []
  }

  lemma CallKeepsUnopened(config: Config, w: Watched, s: State, p: Segment)
    requires |p.payload| < TWO_31 && Unopened(w, s) && (Concerns(w, p) ==> !IsStreamStart(p.payload))
    ensures Unopened(w, Inserted(config, s, p).0)
    ensures Concerns(w, p) ==> Inserted(config, s, p).1.payload == []
  {
    hide IsStreamStart, KeyOf, DirectionOf, DataSequence, TotalBytes, Append, Overlap, Sub64, SequenceDistance;
  }

  /** Whatever the packets are: as long as none in the watched direction looks like a stream start, nothing of
      that direction is ever inspected. */
  lemma {:induction false} NoStartNoAnswer(config: Config, w: Watched, s: State, run: seq<Segment>)
    requires Small(run) && Unopened(w, s)
    requires forall p | p in run && Concerns(w, p) :: !IsStreamStart(p.payload)
    ensures |Answers(config, s, run)| == |run|
    ensures forall j :: 0 <= j < |run| && Concerns(w, run[j]) ==> Answers(config, s, run)[j].payload == []
    decreases |run|
  {
    hide Inserted, Unopened, Concerns, IsStreamStart;
    if run != [] {
      CallKeepsUnopened(config, w, s, run[0]);
      NoStartNoAnswer(config, w, Inserted(config, s, run[0]).0, run[1..]);
    }
  }
}
