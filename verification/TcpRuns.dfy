/** Whole runs of the TCP reassembler: the calls for one watched stream among everything else that arrives, and what the
    stream is after them. */
module TcpRuns {
  import opened Machine
  import opened Packet
  import opened TcpReassembly
  import opened TcpAccounting
  import opened TcpOrder

  // ---------------------------------------------------------------- one call

  /** The stream we watch: cut `c`, sent in direction `dir` of connection `key`. */
  datatype Watched = Watched(c: Cut, key: StreamKey, dir: DirectionIndex)

  /** What a call is to the watched stream: its segment `i`; another packet of the same connection, such as a
      SYN, a bare acknowledgement or anything in the other direction; or a packet of something else. */
  datatype Tag = Ours(i: nat) | Aside | Foreign

  predicate OfConnection(w: Watched, p: Segment) {
    p.meta.protocol == Tcp && KeyOf(p.meta) == w.key
  }

  /** The packet travels in the watched direction of the connection, so its answer is about the watched stream. */
  predicate Concerns(w: Watched, p: Segment) {
    OfConnection(w, p) && DirectionOf(p.meta) == w.dir
  }

  ghost predicate Carries(w: Watched, p: Segment, i: nat)
    requires w.c.Shaped()
  {
    i < w.c.Count() && Concerns(w, p) && DataSequence(p.meta) == w.c.At(i) && p.payload == w.c.Part(i)
  }

  ghost predicate Fits(w: Watched, p: Segment, tag: Tag)
    requires w.c.Shaped()
  {
    && |p.payload| < TWO_31
    && match tag
       case Ours(i) => Carries(w, p, i)
       case Aside => OfConnection(w, p) && (p.payload == [] || DirectionOf(p.meta) != w.dir)
       case Foreign => !OfConnection(w, p)
  }

  /** The reassembler after exactly the segments in `seen` of the watched stream have arrived. */
  ghost predicate Holds(w: Watched, s: State, seen: set<nat>, ids: seq<nat>) {
    && w.c.Valid()
    && if w.key in s.streams then Grid(w.c, s.streams[w.key].At(w.dir), seen, ids) else seen == {} && ids == []
  }

  lemma FreshGrid(c: Cut)
    requires c.Valid()
    ensures Grid(c, EMPTY_DIRECTION, {}, [])
  {}

  function SeenWith(seen: set<nat>, tag: Tag): set<nat> {
    if tag.Ours? then seen + {tag.i} else seen
  }

  /** The leading segments in `seen`, joined. */
  function Leading(c: Cut, seen: set<nat>): Bytes
    requires c.Shaped()
  {
    c.bytes[..c.bounds[Reach(seen, 0, c.Count())]]
  }

  /** Our segments are accepted, and every accepted packet in the watched direction is answered with the prefix made of
      the leading segments seen so far. */
  ghost predicate RightAnswer(w: Watched, seen: set<nat>, tag: Tag, p: Segment, answer: Result)
    requires w.c.Shaped()
  {
    && (tag.Ours? ==> !answer.status.Fatal())
    && (Concerns(w, p) && !answer.status.Fatal() ==> answer.payload == Leading(w.c, SeenWith(seen, tag)))
  }

  /** Bytes a call adds at most. */
  function Cost(seen: set<nat>, tag: Tag, p: Segment): nat {
    if (tag.Ours? && tag.i in seen) || p.meta.protocol != Tcp then 0 else |p.payload|
  }

  /** What a call must leave behind and answer. */
  ghost predicate Continues(w: Watched, s: State, p: Segment, tag: Tag, seen: set<nat>, outcome: (State, Result),
                            ids: seq<nat>)
    requires w.c.Shaped()
  {
    && Holds(w, outcome.0, SeenWith(seen, tag), ids)
    && (w.key in outcome.0.streams ==>
          if OfConnection(w, p) then outcome.0.streams[w.key].lastSeen == p.now
          else w.key in s.streams && outcome.0.streams[w.key] == s.streams[w.key])
    && outcome.0.buffered <= s.buffered + Cost(seen, tag, p)
    && RightAnswer(w, seen, tag, p, outcome.1)
  }

  /** The caps admit segment `i` of the watched stream once idle streams are gone: its connection is known or
      the table has a place, and there is room in its direction. */
  ghost predicate Admissible(config: Config, w: Watched, live: State, p: Segment, seen: set<nat>, i: nat)
    requires w.c.Shaped() && i < w.c.Count()
  {
    && (w.key in live.streams || |live.streams| < config.maxStreams)
    && Room(config, w.c, live.buffered, StreamFor(live, p).At(w.dir), seen, i)
  }

  /** One of our segments is accepted exactly when the caps admit it, and then all is as it should be. */
  lemma DeliverOurs(config: Config, w: Watched, live: State, p: Segment, seen: set<nat>, ids: seq<nat>, i: nat)
    returns (ids': seq<nat>)
    requires Holds(w, live, seen, ids) && Carries(w, p, i) && |p.payload| < TWO_31
    ensures if Admissible(config, w, live, p, seen, i)
            then Continues(w, live, p, Ours(i), seen, Delivered(config, live, p), ids')
            else Delivered(config, live, p).1.status == ResourceLimit
  {
    var stream := StreamFor(live, p);
    if w.key !in live.streams {
      FreshGrid(w.c);
    }
    assert Grid(w.c, stream.At(w.dir), seen, ids);
    hide Add, KeyOf, DirectionOf, DataSequence, Grid, TotalBytes, Room;
    ids' := Arrive(config, live.buffered, w.c, stream.At(w.dir), seen, ids, i);
    if Admissible(config, w, live, p, seen, i) {
      AdvancesPrefix(w.c, live.buffered, seen, i, AddedTo(config, live, p), ids');
    }
  }

  lemma AdvancesPrefix(c: Cut, buffered: nat, seen: set<nat>, i: nat, a: Added, ids: seq<nat>)
    requires c.Shaped() && i < c.Count() && Advances(c, buffered, seen, i, a, ids)
    ensures a.direction.contiguous == Leading(c, seen + {i})
  {}

  lemma GridPrefix(c: Cut, d: Direction, seen: set<nat>, ids: seq<nat>)
    requires Grid(c, d, seen, ids)
    ensures d.contiguous == Leading(c, seen)
  {}

  /** Removing idle streams that are not ours. */
  lemma PurgeKeepsHolds(config: Config, w: Watched, s: State, now: U64, seen: set<nat>, ids: seq<nat>)
    requires Holds(w, s, seen, ids) && Awake(config, s, w.key, now)
    ensures var live := Purged(config, s, now);
            && Holds(w, live, seen, ids)
            && (w.key in live.streams <==> w.key in s.streams)
            && (w.key in s.streams ==> live.streams[w.key] == s.streams[w.key])
            && |live.streams| <= |s.streams|
  {
    hide Grid, Sub64, TotalBytes;
    var live := Purged(config, s, now);
    assert live.streams.Keys <= s.streams.Keys;
    SubsetSize(live.streams.Keys, s.streams.Keys);
  }

  /** The same for a whole call of `Insert`. */
  lemma InsertOurs(config: Config, w: Watched, s: State, p: Segment, seen: set<nat>, ids: seq<nat>, i: nat)
    returns (ids': seq<nat>)
    requires Holds(w, s, seen, ids) && Carries(w, p, i) && |p.payload| < TWO_31
    requires config.enabled && Accounted(config, s) && Awake(config, s, w.key, p.now)
    ensures if Admissible(config, w, Purged(config, s, p.now), p, seen, i)
            then Continues(w, s, p, Ours(i), seen, Inserted(config, s, p), ids')
            else Inserted(config, s, p).1.status == ResourceLimit
  {
    hide Grid, Holds, Accounted, Purged, Delivered, KeyOf, DirectionOf, DataSequence, RightAnswer, Awake, Admissible;
    PurgedAccounted(config, s, p.now);
    PurgeKeepsHolds(config, w, s, p.now, seen, ids);
    ids' := DeliverOurs(config, w, Purged(config, s, p.now), p, seen, ids, i);
  }

  /** Another packet of the connection: it refreshes the stream, or is turned away without harm. */
  lemma DeliverAside(config: Config, w: Watched, live: State, p: Segment, seen: set<nat>, ids: seq<nat>)
    requires Holds(w, live, seen, ids) && Fits(w, p, Aside)
    requires p.payload != [] ==> !Delivered(config, live, p).1.status.Fatal()
    ensures var (s', answer) := Delivered(config, live, p);
            && Holds(w, s', seen, ids)
            && (w.key in s'.streams ==> s'.streams[w.key].lastSeen == p.now)
            && RightAnswer(w, seen, Aside, p, answer)
  {
    hide Grid, KeyOf, DirectionOf, DataSequence, TotalBytes, Reach, IsStreamStart, Append, Queue, Overlap;
    FreshGrid(w.c);
    if Admits(config, live, p) {
      var d := StreamFor(live, p).At(w.dir);
      assert Grid(w.c, d, seen, ids);
      GridPrefix(w.c, d, seen, ids);
    }
  }

  lemma InsertAside(config: Config, w: Watched, s: State, p: Segment, seen: set<nat>, ids: seq<nat>)
    requires Holds(w, s, seen, ids) && Fits(w, p, Aside)
    requires config.enabled && Accounted(config, s) && Awake(config, s, w.key, p.now)
    requires p.payload != [] ==> !Inserted(config, s, p).1.status.Fatal()
    ensures Continues(w, s, p, Aside, seen, Inserted(config, s, p), ids)
  {
    hide Grid, Holds, Accounted, Purged, Delivered, KeyOf, DirectionOf, DataSequence, RightAnswer, Awake;
    InsertedAccounted(config, s, p);
    PurgeKeepsHolds(config, w, s, p.now, seen, ids);
    DeliverAside(config, w, Purged(config, s, p.now), p, seen, ids);
  }

  lemma DeliverForeign(config: Config, live: State, key: StreamKey, p: Segment)
    requires KeyOf(p.meta) != key && |p.payload| < TWO_31
    ensures var s' := Delivered(config, live, p).0;
            && (key in s'.streams <==> key in live.streams)
            && (key in live.streams ==> s'.streams[key] == live.streams[key])
  {
    hide Add, KeyOf, DirectionOf, DataSequence, TotalBytes;
  }

  /** Why refused payloads in the other direction have to be excluded: they take the whole connection down,
      exactly when the guards of their own direction refuse them. */
  lemma AsideErasesIff(config: Config, w: Watched, s: State, p: Segment)
    requires config.enabled && w.c.Shaped() && Fits(w, p, Aside)
    requires Accounted(config, s) && w.key in s.streams && Awake(config, s, w.key, p.now)
    ensures var live := Purged(config, s, p.now);
            && w.key in live.streams
            && (w.key !in Inserted(config, s, p).0.streams <==>
                Refuses(config, live.buffered, live.streams[w.key].At(DirectionOf(p.meta)), DataSequence(p.meta),
                        p.payload))
  {
    hide Add, KeyOf, DirectionOf, DataSequence, TotalBytes, Sub64, Refuses;
    var live := Purged(config, s, p.now);
    assert w.key in live.streams;
    assert StreamOk(config, s.streams[w.key]);
    RefusedIff(config, live.buffered, live.streams[w.key].At(DirectionOf(p.meta)), DataSequence(p.meta), p.payload);
  }

  /** A packet of anything else leaves the watched stream alone. */
  lemma InsertForeign(config: Config, w: Watched, s: State, p: Segment, seen: set<nat>, ids: seq<nat>)
    requires Holds(w, s, seen, ids) && Fits(w, p, Foreign) && Accounted(config, s)
    requires p.meta.protocol == Tcp ==> Awake(config, s, w.key, p.now)
    ensures Continues(w, s, p, Foreign, seen, Inserted(config, s, p), ids)
  {
    hide Delivered, Grid, Accounted, Purged, KeyOf, DirectionOf, DataSequence, Awake;
    InsertedAccounted(config, s, p);
    if config.enabled && p.meta.protocol == Tcp {
      PurgeKeepsHolds(config, w, s, p.now, seen, ids);
      DeliverForeign(config, Purged(config, s, p.now), w.key, p);
    }
  }

  lemma SubsetSize<T>(a: set<T>, b: set<T>)
    requires a <= b
    ensures |a| <= |b|
  {
    assert |b| == |a| + |b - a| by {
      assert b == a + (b - a);
    }
  }

  // ---------------------------------------------------------------- whole runs

  ghost predicate Schedule(w: Watched, run: seq<Segment>, tags: seq<Tag>)
    requires w.c.Shaped()
  {
    |tags| == |run| && forall j :: 0 <= j < |run| ==> Fits(w, run[j], tags[j])
  }

  /** When the connection was last heard of, after one more packet. */
  function LastWith(w: Watched, last: Option<U64>, p: Segment): Option<U64> {
    if OfConnection(w, p) then Some(p.now) else last
  }

  /** No packet comes after the connection has been silent for longer than the idle timeout. */
  ghost predicate Timely(config: Config, w: Watched, last: Option<U64>, run: seq<Segment>)
    decreases |run|
  {
    config.timeoutCycles == 0 || run == [] ||
    (&& (last.Some? && run[0].meta.protocol == Tcp ==> Sub64(run[0].now, last.value) <= config.timeoutCycles)
     && Timely(config, w, LastWith(w, last, run[0]), run[1..]))
  }

  ghost predicate Touched(w: Watched, s: State, last: Option<U64>) {
    w.key in s.streams ==> last == Some(s.streams[w.key].lastSeen)
  }

  /** At each arrival of one of our segments the caps admit it. */
  ghost predicate Admitted(config: Config, w: Watched, s: State, seen: set<nat>, run: seq<Segment>, tags: seq<Tag>)
    requires w.c.Shaped() && Schedule(w, run, tags)
    decreases |run|
  {
    run == [] ||
    (TailScheduled(w, run, tags);
     && (tags[0].Ours? ==> Admissible(config, w, Purged(config, s, run[0].now), run[0], seen, tags[0].i))
     && Admitted(config, w, Inserted(config, s, run[0]).0, SeenWith(seen, tags[0]), run[1..], tags[1..]))
  }

  lemma FitsSize(w: Watched, p: Segment, tag: Tag)
    requires w.c.Shaped() && Fits(w, p, tag)
    ensures |p.payload| < TWO_31
  {}

  lemma TailScheduled(w: Watched, run: seq<Segment>, tags: seq<Tag>)
    requires w.c.Shaped() && run != [] && Schedule(w, run, tags)
    ensures Fits(w, run[0], tags[0]) && Schedule(w, run[1..], tags[1..])
  {}

  /** No payload in the other direction brings the connection down. */
  ghost predicate Tolerated(config: Config, s: State, run: seq<Segment>, tags: seq<Tag>)
    requires |run| == |tags| && forall j :: 0 <= j < |run| ==> |run[j].payload| < TWO_31
    decreases |run|
  {
    run == [] ||
    (&& (tags[0].Aside? && run[0].payload != [] ==> !Inserted(config, s, run[0]).1.status.Fatal())
     && Tolerated(config, Inserted(config, s, run[0]).0, run[1..], tags[1..]))
  }

  function SeenAfter(seen: set<nat>, tags: seq<Tag>): set<nat>
    decreases |tags|
  {
    if tags == [] then seen else SeenAfter(SeenWith(seen, tags[0]), tags[1..])
  }

  /** No segment arrives that is already in `seen`, and none arrives twice. */
  ghost predicate NoRepeat(seen: set<nat>, tags: seq<Tag>)
    decreases |tags|
  {
    tags == [] || (&& (tags[0].Ours? ==> tags[0].i !in seen)
                   && NoRepeat(SeenWith(seen, tags[0]), tags[1..]))
  }

  ghost function Answers(config: Config, s: State, run: seq<Segment>): seq<Result>
    requires forall p | p in run :: |p.payload| < TWO_31
    decreases |run|
  {
    if run == [] then []
    else [Inserted(config, s, run[0]).1] + Answers(config, Inserted(config, s, run[0]).0, run[1..])
  }

  /** The answer to call `j` is about the watched stream. */
  ghost predicate Answered(w: Watched, run: seq<Segment>, answers: seq<Result>, j: nat) {
    j < |run| && j < |answers| && Concerns(w, run[j]) && !answers[j].status.Fatal()
  }

  /** Every answer about the watched stream is right. */
  ghost predicate RightAnswers(w: Watched, seen: set<nat>, run: seq<Segment>, tags: seq<Tag>, answers: seq<Result>)
    requires w.c.Shaped()
    decreases |tags|
  {
    |tags| == |answers| == |run| &&
    (tags == [] ||
     (&& RightAnswer(w, seen, tags[0], run[0], answers[0])
      && RightAnswers(w, SeenWith(seen, tags[0]), run[1..], tags[1..], answers[1..])))
  }

  lemma AwakeInTime(config: Config, w: Watched, s: State, last: Option<U64>, run: seq<Segment>)
    requires run != [] && Timely(config, w, last, run) && Touched(w, s, last) && run[0].meta.protocol == Tcp
    ensures Awake(config, s, w.key, run[0].now)
  {}

  /** A scheduled run whose own segments are admitted when they come; `last` is when the connection was last
      heard of. */
  ghost predicate Course(config: Config, w: Watched, s: State, run: seq<Segment>, tags: seq<Tag>, seen: set<nat>,
                         ids: seq<nat>, last: Option<U64>)
  {
    && config.enabled && Holds(w, s, seen, ids) && Accounted(config, s)
    && Schedule(w, run, tags) && Timely(config, w, last, run) && Touched(w, s, last)
    && Admitted(config, w, s, seen, run, tags)
  }

  /** Everything a scheduled run needs at its start. */
  ghost predicate Scene(config: Config, w: Watched, s: State, run: seq<Segment>, tags: seq<Tag>, seen: set<nat>,
                        ids: seq<nat>, last: Option<U64>)
  {
    Course(config, w, s, run, tags, seen, ids, last) && Tolerated(config, s, run, tags)
  }

  lemma CourseSizes(config: Config, w: Watched, s: State, run: seq<Segment>, tags: seq<Tag>, seen: set<nat>,
                    ids: seq<nat>, last: Option<U64>)
    requires Course(config, w, s, run, tags, seen, ids, last)
    ensures Holds(w, s, seen, ids) && w.c.Valid() && |tags| == |run| && Accounted(config, s) && Schedule(w, run, tags)
    ensures forall j :: 0 <= j < |run| ==> |run[j].payload| < TWO_31
  {}

  /** One call, whatever it is to the watched stream. */
  lemma CallContinues(config: Config, w: Watched, s: State, p: Segment, tag: Tag, seen: set<nat>, ids: seq<nat>)
    returns (ids': seq<nat>)
    requires config.enabled && Holds(w, s, seen, ids) && Accounted(config, s) && w.c.Shaped() && Fits(w, p, tag)
    requires p.meta.protocol == Tcp ==> Awake(config, s, w.key, p.now)
    requires tag.Ours? ==> Admissible(config, w, Purged(config, s, p.now), p, seen, tag.i)
    requires tag.Aside? && p.payload != [] ==> !Inserted(config, s, p).1.status.Fatal()
    ensures Continues(w, s, p, tag, seen, Inserted(config, s, p), ids')
  {
    hide Grid, Holds, Accounted, KeyOf, DirectionOf, DataSequence, Inserted, Awake, Continues, Purged, Admissible;
    ids' := ids;
    match tag {
      case Ours(i) => ids' := InsertOurs(config, w, s, p, seen, ids, i);
      case Aside => InsertAside(config, w, s, p, seen, ids);
      case Foreign => InsertForeign(config, w, s, p, seen, ids);
    }
  }

  lemma ContinuesTouched(w: Watched, s: State, p: Segment, tag: Tag, seen: set<nat>, outcome: (State, Result),
                         ids: seq<nat>, last: Option<U64>)
    requires w.c.Shaped() && Continues(w, s, p, tag, seen, outcome, ids) && Touched(w, s, last)
    ensures Holds(w, outcome.0, SeenWith(seen, tag), ids) && Touched(w, outcome.0, LastWith(w, last, p))
    ensures RightAnswer(w, seen, tag, p, outcome.1)
  {
    hide Holds, RightAnswer, KeyOf;
  }

  /** After the first packet, unless a payload in the other direction was refused, the rest is such a run again, and the
      answer was right. */
  lemma CourseAdvances(config: Config, w: Watched, s: State, run: seq<Segment>, tags: seq<Tag>, seen: set<nat>,
                       ids: seq<nat>, last: Option<U64>)
    returns (ids': seq<nat>)
    requires Course(config, w, s, run, tags, seen, ids, last) && run != []
    requires w.c.Shaped() && |tags| == |run| && |run[0].payload| < TWO_31
    requires tags[0].Aside? && run[0].payload != [] ==> !Inserted(config, s, run[0]).1.status.Fatal()
    ensures Course(config, w, Inserted(config, s, run[0]).0, run[1..], tags[1..], SeenWith(seen, tags[0]), ids',
                   LastWith(w, last, run[0]))
    ensures RightAnswer(w, seen, tags[0], run[0], Inserted(config, s, run[0]).1)
  {
    TailScheduled(w, run, tags);
    InsertedAccounted(config, s, run[0]);
    if run[0].meta.protocol == Tcp {
      AwakeInTime(config, w, s, last, run);
    }
    hide Grid, Holds, Accounted, KeyOf, DirectionOf, DataSequence, Inserted, Awake, Continues, Purged, Admissible,
         Schedule, Touched, RightAnswer, Fits;
    ids' := CallContinues(config, w, s, run[0], tags[0], seen, ids);
    ContinuesTouched(w, s, run[0], tags[0], seen, Inserted(config, s, run[0]), ids', last);
  }

  /** The whole-run invariant: after any scheduled run the stream is exactly what the set of arrived segments
      determines, and so was every answer on the way. */
  lemma {:induction false} RunGrid(config: Config, w: Watched, s: State, run: seq<Segment>, tags: seq<Tag>,
                                   seen: set<nat>, ids: seq<nat>, last: Option<U64>)
    returns (ids': seq<nat>)
    requires Scene(config, w, s, run, tags, seen, ids, last)
    requires forall p | p in run :: |p.payload| < TWO_31
    ensures Holds(w, Run(config, s, run), SeenAfter(seen, tags), ids')
    ensures RightAnswers(w, seen, run, tags, Answers(config, s, run))
    decreases |run|
  {
    hide Course, Inserted, Holds, Accounted, Reach, RightAnswer, Schedule, KeyOf;
    CourseSizes(config, w, s, run, tags, seen, ids, last);
    if run == [] {
      ids' := ids;
    } else {
      var ids1 := CourseAdvances(config, w, s, run, tags, seen, ids, last);
      ids' := RunGrid(config, w, Inserted(config, s, run[0]).0, run[1..], tags[1..], SeenWith(seen, tags[0]), ids1,
                      LastWith(w, last, run[0]));
    }
  }

  lemma {:induction false} SeenContains(seen: set<nat>, tags: seq<Tag>, i: nat)
    ensures i in SeenAfter(seen, tags) <==> i in seen || Ours(i) in tags
    decreases |tags|
  {
    if tags != [] {
      SeenContains(SeenWith(seen, tags[0]), tags[1..], i);
      assert tags == [tags[0]] + tags[1..];
    }
  }

  /** Nothing of the watched stream has arrived yet; the connection itself may be known. */
  ghost predicate Untouched(w: Watched, s: State) {
    w.key in s.streams ==> s.streams[w.key].At(w.dir) == EMPTY_DIRECTION
  }

  /** The watched stream has been reassembled completely. */
  ghost predicate Whole(w: Watched, s: State) {
    && w.key in s.streams
    && s.streams[w.key].At(w.dir).contiguous == w.c.bytes && s.streams[w.key].At(w.dir).pending == []
  }

  ghost predicate AllArrive(w: Watched, tags: seq<Tag>)
    requires w.c.Shaped()
  {
    forall i :: 0 <= i < w.c.Count() ==> Ours(i) in tags
  }

  /** A run in front of a direction that has seen nothing yet. */
  ghost predicate Begins(config: Config, w: Watched, s: State, run: seq<Segment>, tags: seq<Tag>, last: Option<U64>) {
    && config.enabled && w.c.Valid() && Accounted(config, s) && Untouched(w, s) && Touched(w, s, last)
    && Schedule(w, run, tags) && Timely(config, w, last, run)
  }

  lemma BeginsHolds(config: Config, w: Watched, s: State, run: seq<Segment>, tags: seq<Tag>, last: Option<U64>)
    requires Begins(config, w, s, run, tags, last)
    ensures Holds(w, s, {}, []) && w.c.Shaped() && |tags| == |run| && Schedule(w, run, tags)
    ensures forall j :: 0 <= j < |run| ==> |run[j].payload| < TWO_31
  {
    FreshGrid(w.c);
    hide Accounted, Timely, Grid, IsStreamStart;
  }

  /** Segmentation and order independence. Once every segment of a stream has arrived at least once, in any order,
      among handshakes, acknowledgements and any other traffic, each admitted when it came, the inspected payload is the
      whole stream and nothing is left in the queue. */
  lemma OrderIndependence(config: Config, w: Watched, s: State, run: seq<Segment>, tags: seq<Tag>, last: Option<U64>)
    requires Begins(config, w, s, run, tags, last) && AllArrive(w, tags)
    requires Admitted(config, w, s, {}, run, tags)
    requires forall p | p in run :: |p.payload| < TWO_31
    requires Tolerated(config, s, run, tags)
    ensures Whole(w, Run(config, s, run))
  {
    BeginsHolds(config, w, s, run, tags, last);
    assert Scene(config, w, s, run, tags, {}, [], last);
    hide Run, Scene, Course, Holds, Accounted, Schedule, Timely, Tolerated, Admitted, SeenAfter, Answers, RightAnswers;
    var ids := RunGrid(config, w, s, run, tags, {}, [], last);
    forall i | 0 <= i < w.c.Count() ensures i in SeenAfter({}, tags) {
      SeenContains({}, tags, i);
    }
    WholeStream(w, Run(config, s, run), SeenAfter({}, tags), ids);
  }

  lemma WholeStream(w: Watched, s: State, seen: set<nat>, ids: seq<nat>)
    requires Holds(w, s, seen, ids)
    requires forall i :: 0 <= i < w.c.Count() ==> i in seen
    ensures Whole(w, s)
  {
    assert 0 in seen;
    ReachIs(seen, w.c.Count(), w.c.Count());
    DistinctFit(ids, {});
  }

  // ---------------------------------------------------------------- both directions

  /** The two directions of one connection. */
  ghost predicate Opposite(w: Watched, v: Watched) {
    w.key == v.key && w.dir != v.dir
  }

  /** Every payload of the connection is a segment of one of the two streams. */
  ghost predicate Shared(run: seq<Segment>, tags: seq<Tag>, back: seq<Tag>) {
    |run| == |tags| == |back| &&
    forall j :: 0 <= j < |run| && run[j].payload != [] ==>
      (tags[j].Aside? ==> back[j].Ours?) && (back[j].Aside? ==> tags[j].Ours?)
  }

  /** A packet that is ours is accepted. */
  lemma OursAccepted(config: Config, w: Watched, s: State, run: seq<Segment>, tags: seq<Tag>, seen: set<nat>,
                     ids: seq<nat>, last: Option<U64>)
    requires Course(config, w, s, run, tags, seen, ids, last) && run != []
    requires w.c.Shaped() && |tags| == |run| && |run[0].payload| < TWO_31
    ensures tags[0].Ours? ==> !Inserted(config, s, run[0]).1.status.Fatal()
  {
    if tags[0].Ours? {
      hide Grid, Holds, Accounted, KeyOf, DirectionOf, DataSequence, Inserted, Purged, Admissible;
      var _ := CourseAdvances(config, w, s, run, tags, seen, ids, last);
    }
  }

  /** If the other direction is a scheduled stream as well, and each direction's segments are admitted when
      they come, no payload of either brings the connection down. */
  lemma {:induction false} BothTolerated(config: Config, w: Watched, v: Watched, s: State, run: seq<Segment>,
                                         tags: seq<Tag>, back: seq<Tag>, seen: set<nat>, seenBack: set<nat>,
                                         ids: seq<nat>, idsBack: seq<nat>, last: Option<U64>)
    requires Opposite(w, v) && Shared(run, tags, back)
    requires Course(config, w, s, run, tags, seen, ids, last) &&
             Course(config, v, s, run, back, seenBack, idsBack, last)
    requires forall j :: 0 <= j < |run| ==> |run[j].payload| < TWO_31
    ensures Tolerated(config, s, run, tags) && Tolerated(config, s, run, back)
    decreases |run|
  {
    hide Course, Inserted, KeyOf;
    if run != [] {
      CourseSizes(config, w, s, run, tags, seen, ids, last);
      CourseSizes(config, v, s, run, back, seenBack, idsBack, last);
      OursAccepted(config, w, s, run, tags, seen, ids, last);
      OursAccepted(config, v, s, run, back, seenBack, idsBack, last);
      var ids1 := CourseAdvances(config, w, s, run, tags, seen, ids, last);
      var ids2 := CourseAdvances(config, v, s, run, back, seenBack, idsBack, last);
      assert LastWith(v, last, run[0]) == LastWith(w, last, run[0]);
      BothTolerated(config, w, v, Inserted(config, s, run[0]).0, run[1..], tags[1..], back[1..],
                    SeenWith(seen, tags[0]), SeenWith(seenBack, back[0]), ids1, ids2, LastWith(w, last, run[0]));
    }
  }

  /** Both directions of a connection at once: if each is a cut stream whose segments are admitted when they come, then
      whatever the order and the interleaving, both are reassembled completely. */
  lemma DuplexIndependence(config: Config, w: Watched, v: Watched, s: State, run: seq<Segment>, tags: seq<Tag>,
                           back: seq<Tag>, last: Option<U64>)
    requires Opposite(w, v) && Shared(run, tags, back)
    requires Begins(config, w, s, run, tags, last) && Begins(config, v, s, run, back, last)
    requires AllArrive(w, tags) && AllArrive(v, back)
    requires Admitted(config, w, s, {}, run, tags) && Admitted(config, v, s, {}, run, back)
    requires forall p | p in run :: |p.payload| < TWO_31
    ensures Whole(w, Run(config, s, run)) && Whole(v, Run(config, s, run))
  {
    BeginsHolds(config, w, s, run, tags, last);
    BeginsHolds(config, v, s, run, back, last);
    assert Course(config, w, s, run, tags, {}, [], last) && Course(config, v, s, run, back, {}, [], last);
    hide Course, Holds, Accounted, Schedule, Timely, Admitted, Tolerated, Run, Whole;
    BothTolerated(config, w, v, s, run, tags, back, {}, {}, [], [], last);
    OrderIndependence(config, w, s, run, tags, last);
    OrderIndependence(config, v, s, run, back, last);
  }

  // ---------------------------------------------------------------- room that can be seen in advance

  function OtherBytes(run: seq<Segment>, tags: seq<Tag>): nat
    requires |run| == |tags|
  {
    if run == [] then 0
    else
      OtherBytes(run[1..], tags[1..])
      + if tags[0].Ours? || run[0].meta.protocol != Tcp then 0 else |run[0].payload|
  }

  /** The connections known or still to come. */
  ghost function Connections(w: Watched, s: State, run: seq<Segment>): set<StreamKey> {
    s.streams.Keys + {w.key} + set p | p in run && p.meta.protocol == Tcp :: KeyOf(p.meta)
  }

  /** Everything offered fits: the stream in the per-direction cap, its segments in the queue, all TCP bytes in
      the budget, all connections in the table. With retransmissions, one place and one segment more. */
  ghost predicate Provisioned(config: Config, w: Watched, s: State, seen: set<nat>, run: seq<Segment>,
                              tags: seq<Tag>, repeats: bool)
    requires w.c.Shaped() && |run| == |tags|
  {
    && |w.c.bytes| <= config.maxBytesPerDirection
    && |Connections(w, s, run)| <= config.maxStreams
    && (repeats || NoRepeat(seen, tags))
    && w.c.Count() <= config.maxOutOfOrder + (if repeats then 0 else 1)
    && var offered := s.buffered + OtherBytes(run, tags) + |w.c.bytes|;
    && offered <= config.budget + Weight(w.c, seen, w.c.Count())
    && forall i :: repeats && 0 <= i < w.c.Count() ==>
      offered + |w.c.Part(i)| <= config.budget + Weight(w.c, seen, w.c.Count())
  }

  lemma RoomLeft(config: Config, w: Watched, s: State, seen: set<nat>, run: seq<Segment>, tags: seq<Tag>, repeats: bool)
    requires run != [] && |run| == |tags| && tags[0].Ours? && w.c.Shaped() && tags[0].i < w.c.Count()
    requires Provisioned(config, w, s, seen, run, tags, repeats)
    ensures AmpleRoom(config, w.c, s.buffered, seen, tags[0].i)
    ensures w.key in s.streams || |s.streams| < config.maxStreams
  {
    var i := tags[0].i;
    if i in seen {
      WeightBound(w.c, seen, w.c.Count());
    } else {
      WeightGrows(w.c, seen, i, w.c.Count());
    }
    hide Weight;
    SubsetSize(s.streams.Keys + {w.key}, Connections(w, s, run));
  }

  lemma ConnectionsShrink(config: Config, w: Watched, s: State, run: seq<Segment>)
    requires run != [] && |run[0].payload| < TWO_31
    ensures |Connections(w, Inserted(config, s, run[0]).0, run[1..])| <= |Connections(w, s, run)|
  {
    hide Add, KeyOf, DirectionOf, DataSequence, Sub64, TotalBytes;
    assert run[0] in run;
    if run[0].meta.protocol == Tcp {
      assert Inserted(config, s, run[0]).0.streams.Keys <= s.streams.Keys + {KeyOf(run[0].meta)};
    } else {
      assert Inserted(config, s, run[0]).0 == s;
    }
    SubsetSize(Connections(w, Inserted(config, s, run[0]).0, run[1..]), Connections(w, s, run));
  }

  lemma StillProvisioned(config: Config, w: Watched, s: State, s': State, seen: set<nat>, run: seq<Segment>,
                         tags: seq<Tag>, repeats: bool)
    requires run != [] && |run| == |tags| && w.c.Shaped() && Fits(w, run[0], tags[0])
    requires Provisioned(config, w, s, seen, run, tags, repeats)
    requires |Connections(w, s', run[1..])| <= |Connections(w, s, run)|
    requires s'.buffered <= s.buffered + Cost(seen, tags[0], run[0])
    ensures Provisioned(config, w, s', SeenWith(seen, tags[0]), run[1..], tags[1..], repeats)
  {
    hide KeyOf, DirectionOf, DataSequence, Connections;
    if tags[0].Ours? {
      var i := tags[0].i;
      if i in seen {
        assert seen + {i} == seen;
      } else {
        WeightGrows(w.c, seen, i, w.c.Count());
      }
    }
    hide Weight;
    var before, after := Weight(w.c, seen, w.c.Count()), Weight(w.c, SeenWith(seen, tags[0]), w.c.Count());
    assert s'.buffered + OtherBytes(run[1..], tags[1..]) + before <= s.buffered + OtherBytes(run, tags) + after;
  }

  /** Room left before idle streams are removed is left afterwards. */
  lemma AmpleIsAdmissible(config: Config, w: Watched, s: State, p: Segment, seen: set<nat>, ids: seq<nat>, i: nat)
    requires Holds(w, s, seen, ids) && Accounted(config, s) && Awake(config, s, w.key, p.now) && Carries(w, p, i)
    requires AmpleRoom(config, w.c, s.buffered, seen, i) && (w.key in s.streams || |s.streams| < config.maxStreams)
    ensures Admissible(config, w, Purged(config, s, p.now), p, seen, i)
  {
    PurgedAccounted(config, s, p.now);
    PurgeKeepsHolds(config, w, s, p.now, seen, ids);
    hide Accounted, KeyOf, DirectionOf, DataSequence, Purged, Awake, Room, Grid, IsStreamStart;
    var live := Purged(config, s, p.now);
    FreshGrid(w.c);
    AmpleIsRoom(config, w.c, live.buffered, StreamFor(live, p).At(w.dir), seen, ids, i);
  }

  /** A run for which everything fits is one in which every segment is admitted when it comes. */
  lemma {:induction false} ProvisionedIsAdmitted(config: Config, w: Watched, s: State, run: seq<Segment>,
                                                 tags: seq<Tag>, seen: set<nat>, ids: seq<nat>, last: Option<U64>,
                                                   repeats: bool)
    requires config.enabled && Holds(w, s, seen, ids) && Accounted(config, s) && w.c.Shaped()
    requires Schedule(w, run, tags) && Timely(config, w, last, run) && Touched(w, s, last)
    requires forall j :: 0 <= j < |run| ==> |run[j].payload| < TWO_31
    requires Tolerated(config, s, run, tags) && Provisioned(config, w, s, seen, run, tags, repeats)
    ensures Admitted(config, w, s, seen, run, tags)
    decreases |run|
  {
    if run != [] {
      TailScheduled(w, run, tags);
      hide Fits, Schedule;
      if run[0].meta.protocol == Tcp {
        AwakeInTime(config, w, s, last, run);
      }
      FirstAdmissible(config, w, s, run, tags, seen, ids, repeats);
      InsertedAccounted(config, s, run[0]);
      ConnectionsShrink(config, w, s, run);
      hide Grid, Holds, Accounted, KeyOf, Inserted, Awake, Purged, Admissible, Touched, Provisioned, Connections,
        RightAnswer;
      var ids' := CallContinues(config, w, s, run[0], tags[0], seen, ids);
      ContinuesTouched(w, s, run[0], tags[0], seen, Inserted(config, s, run[0]), ids', last);
      StillProvisioned(config, w, s, Inserted(config, s, run[0]).0, seen, run, tags, repeats);
      ProvisionedIsAdmitted(config, w, Inserted(config, s, run[0]).0, run[1..], tags[1..], SeenWith(seen, tags[0]),
                            ids', LastWith(w, last, run[0]), repeats);
    }
  }

  lemma FirstAdmissible(config: Config, w: Watched, s: State, run: seq<Segment>, tags: seq<Tag>, seen: set<nat>,
                        ids: seq<nat>, repeats: bool)
    requires run != [] && |run| == |tags| && w.c.Shaped() && Fits(w, run[0], tags[0])
    requires Holds(w, s, seen, ids) && Accounted(config, s) && Provisioned(config, w, s, seen, run, tags, repeats)
    requires run[0].meta.protocol == Tcp ==> Awake(config, s, w.key, run[0].now)
    ensures tags[0].Ours? ==> Admissible(config, w, Purged(config, s, run[0].now), run[0], seen, tags[0].i)
  {
    hide Accounted, KeyOf, DirectionOf, DataSequence, Purged, Awake, Admissible, Holds, AmpleRoom;
    if tags[0].Ours? {
      RoomLeft(config, w, s, seen, run, tags, repeats);
      AmpleIsAdmissible(config, w, s, run[0], seen, ids, tags[0].i);
    }
  }

  /** Order independence for runs that fit as a whole. */
  lemma ProvisionedIndependence(config: Config, w: Watched, s: State, run: seq<Segment>, tags: seq<Tag>,
                                last: Option<U64>, repeats: bool)
    requires Begins(config, w, s, run, tags, last) && AllArrive(w, tags)
    requires Provisioned(config, w, s, {}, run, tags, repeats)
    requires forall p | p in run :: |p.payload| < TWO_31
    requires Tolerated(config, s, run, tags)
    ensures Whole(w, Run(config, s, run))
  {
    BeginsHolds(config, w, s, run, tags, last);
    ProvisionedIsAdmitted(config, w, s, run, tags, {}, [], last, repeats);
    hide Begins, Admitted, Tolerated, Provisioned, Run, Whole;
    OrderIndependence(config, w, s, run, tags, last);
  }
}
