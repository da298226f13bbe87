/** Reassembly and hostname extraction together: what the DPI stage learns about a stream while its
    segments arrive. The stage inspects the contiguous payload after every segment and acts on
    the first hostname it gets. */
module HostPipeline {
  import opened Machine
  import opened Packet
  import opened TcpReassembly
  import opened TcpAccounting
  import opened TcpOrder
  import opened TcpRuns
  import opened TcpWindows
  import opened HostExtraction
  import ClientHello

  // ---------------------------------------------------------------- no read past the end

  lemma StartGrows(a: Bytes, b: Bytes)
    requires IsStreamStart(a) && a <= b
    ensures IsStreamStart(b)
  {
    if i :| 0 <= i < |METHODS| && METHODS[i] <= a {
      assert METHODS[i] <= b;
    }
  }

  lemma StartIsSafe(payload: Bytes)
    requires IsStreamStart(payload)
    ensures TlsSni(payload) != OutOfBounds
  {
    if i :| 0 <= i < |METHODS| && METHODS[i] <= payload {
      MethodsStartWithLetters();
      assert payload[0] == METHODS[i][0];
    }
  }

  lemma MethodsStartWithLetters()
    ensures forall i :: 0 <= i < |METHODS| ==> |METHODS[i]| > 0 && METHODS[i][0] != 0x16
  {
    assert METHODS[0][0] == 'G' as int % 256;
    assert METHODS[1][0] == 'P' as int % 256;
    assert METHODS[2][0] == 'P' as int % 256;
    assert METHODS[3][0] == 'H' as int % 256;
    assert METHODS[4][0] == 'D' as int % 256;
    assert METHODS[5][0] == 'O' as int % 256;
    assert METHODS[6][0] == 'P' as int % 256;
  }

  /** The request lines that open a stream: GET, POST, PUT, HEAD, DELETE, OPTIONS and PATCH, each with its space. */
  const REQUESTS: seq<Bytes> :=
    [[71, 69, 84, 32], [80, 79, 83, 84, 32], [80, 85, 84, 32], [72, 69, 65, 68, 32], [68, 69, 76, 69, 84, 69, 32],
     [79, 80, 84, 73, 79, 78, 83, 32], [80, 65, 84, 67, 72, 32]]

  lemma MethodsAreRequests()
    ensures METHODS == REQUESTS
  {
    FirstMethods();
    MiddleMethods();
    LastMethods();
    hide Ascii;
  }

  lemma FirstMethods()
    ensures Ascii("GET ") == REQUESTS[0] && Ascii("POST ") == REQUESTS[1] && Ascii("PUT ") == REQUESTS[2]
  {}

  lemma MiddleMethods()
    ensures Ascii("HEAD ") == REQUESTS[3] && Ascii("DELETE ") == REQUESTS[4]
  {}

  lemma LastMethods()
    ensures Ascii("OPTIONS ") == REQUESTS[5] && Ascii("PATCH ") == REQUESTS[6]
  {}

  /** What opens a stream: one of the request lines, or the six bytes of a handshake record with a ClientHello. */
  lemma StreamStartIff(payload: Bytes)
    ensures IsStreamStart(payload) <==>
            || (exists i :: 0 <= i < |REQUESTS| && REQUESTS[i] <= payload)
            || (|payload| >= 6 && payload[..2] == [22, 3] && payload[5] == 1)
  {
    MethodsAreRequests();
    hide METHODS;
  }

  /** The parser's four bytes are those of the same methods: whatever opens a stream as a request is parsed as
      one, and a payload the parser takes begins like one of them. */
  lemma ParserKnowsTheMethods(data: Bytes)
    requires |data| >= 4
    ensures IsHttpMethod(data) <==> exists i :: 0 <= i < |REQUESTS| && REQUESTS[i][..4] <= data
    ensures (exists i :: 0 <= i < |REQUESTS| && REQUESTS[i] <= data) ==> IsHttpMethod(data)
  {
    assert REQUESTS[0][..4] == [71, 69, 84, 32] && REQUESTS[1][..4] == [80, 79, 83, 84];
    assert REQUESTS[2][..4] == [80, 85, 84, 32] && REQUESTS[3][..4] == [72, 69, 65, 68];
    assert REQUESTS[4][..4] == [68, 69, 76, 69] && REQUESTS[5][..4] == [79, 80, 84, 73];
    assert REQUESTS[6][..4] == [80, 65, 84, 67];
    forall i | 0 <= i < |REQUESTS| ensures REQUESTS[i][..4] <= data <==> data[..4] == REQUESTS[i][..4] {}
    forall i | 0 <= i < |REQUESTS| && REQUESTS[i] <= data ensures REQUESTS[i][..4] <= data {}
  }

  /** A direction inspects nothing, or something that begins like a stream. */
  ghost predicate Begun(d: Direction) {
    && (d.baseKnown <==> d.contiguous != [])
    && (d.baseKnown ==> IsStreamStart(d.contiguous))
  }

  lemma {:induction false} DrainExtends(limit: nat, d: Direction)
    ensures d.contiguous <= Drain(limit, d).0.contiguous
    ensures Drain(limit, d).0.baseKnown == d.baseKnown
    decreases |d.pending|
  {
    var i := FirstAt(d.pending, d.next);
    if i < |d.pending| && |d.contiguous| + |d.pending[i].payload| <= limit {
      DrainExtends(limit, Absorb(d, i));
    }
  }

  lemma AppendKeepsBegun(config: Config, buffered: nat, d: Direction, sequence: U32, payload: Bytes)
    requires payload != [] && d.baseKnown && IsStreamStart(d.contiguous + payload)
    ensures var a := Append(config, buffered, d, sequence, payload); !a.status.Fatal() ==> Begun(a.direction)
  {
    hide IsStreamStart;
    if HasCapacity(config, buffered, |payload|) && |d.contiguous| + |payload| <= config.maxBytesPerDirection {
      var grown := d.(contiguous := d.contiguous + payload, next := Add32(sequence, |payload|));
      DrainExtends(config.maxBytesPerDirection, grown);
      StartGrows(grown.contiguous, Drain(config.maxBytesPerDirection, grown).0.contiguous);
    }
  }

  lemma QueueKeepsPrefix(config: Config, buffered: nat, d: Direction, sequence: U32, payload: Bytes)
    ensures var q := Queue(config, buffered, d, sequence, payload).direction;
            q.baseKnown == d.baseKnown && q.contiguous == d.contiguous
  {}

  lemma AddKeepsBegun(config: Config, buffered: nat, d: Direction, sequence: U32, payload: Bytes)
    requires Begun(d) && |payload| < TWO_31
    ensures var a := Add(config, buffered, d, sequence, payload); !a.status.Fatal() ==> Begun(a.direction)
  {
    hide IsStreamStart, Append, Overlap, SequenceDistance, Add32, Queue;
    QueueKeepsPrefix(config, buffered, d, sequence, payload);
    if payload != [] && !d.baseKnown && IsStreamStart(payload) {
      var b := Rebased(d, sequence);
      ZeroDistance(sequence, sequence);
      assert b.contiguous + payload == payload;
      AppendKeepsBegun(config, buffered, b, sequence, payload);
    } else if payload != [] && d.baseKnown {
      var distance := SequenceDistance(sequence, d.next);
      if distance == 0 {
        StartGrows(d.contiguous, d.contiguous + payload);
        AppendKeepsBegun(config, buffered, d, sequence, payload);
      } else if distance < 0 && SequenceDistance(Add32(sequence, |payload|), d.next) > 0 {
        TrimIsShorterThanPayload(sequence, d.next, |payload|);
        StartGrows(d.contiguous, d.contiguous + payload[-distance..]);
        AppendKeepsBegun(config, buffered, d, d.next, payload[-distance..]);
      }
    }
  }

  ghost predicate AllBegun(s: State) {
    forall k | k in s.streams :: Begun(s.streams[k].first) && Begun(s.streams[k].second)
  }

  lemma InsertedKeepsBegun(config: Config, s: State, p: Segment)
    requires AllBegun(s) && |p.payload| < TWO_31
    ensures AllBegun(Inserted(config, s, p).0)
    ensures TlsSni(Inserted(config, s, p).1.payload) != OutOfBounds
  {
    hide Add, KeyOf, DirectionOf, DataSequence, TotalBytes, IsStreamStart, RecordHeader, Preamble, FindSni, Sub64;
    if config.enabled && p.meta.protocol == Tcp {
      var live := Purged(config, s, p.now);
      var d := StreamFor(live, p).At(DirectionOf(p.meta));
      AddKeepsBegun(config, live.buffered, d, DataSequence(p.meta), p.payload);
      var a := AddedTo(config, live, p);
      if !a.status.Fatal() && a.direction.contiguous != [] {
        StartIsSafe(a.direction.contiguous);
      }
    }
  }

  lemma {:induction false} OperationsKeepBegun(config: Config, s: State, ops: seq<Operation>)
    requires AllBegun(s) && SmallCalls(ops)
    ensures AllBegun(Operated(config, s, ops))
    decreases |ops|
  {
    if ops != [] {
      hide Inserted, TlsSni, Begun;
      match ops[0] {
        case Call(p) =>
          InsertedKeepsBegun(config, s, p);
          OperationsKeepBegun(config, Inserted(config, s, p).0, ops[1..]);
        case Cleanup(now) =>
          OperationsKeepBegun(config, Purged(config, s, now), ops[1..]);
      }
    }
  }

  /** The five-byte read past the end in the TLS parser cannot be reached through the reassembler:
      no payload it ever returns triggers it, whatever calls and clean-ups came before. */
  lemma ReassembledPayloadsAreSafe(config: Config, s: State, ops: seq<Operation>, p: Segment)
    requires AllBegun(s) && SmallCalls(ops) && |p.payload| < TWO_31
    ensures TlsSni(Inserted(config, Operated(config, s, ops), p).1.payload) != OutOfBounds
  {
    hide TlsSni, AllBegun, Inserted, Operated;
    OperationsKeepBegun(config, s, ops);
    InsertedKeepsBegun(config, Operated(config, s, ops), p);
  }

  // ---------------------------------------------------------------- answers while segments arrive

  /** The bytes inspected once call `j` has been taken. */
  function Inspected(c: Cut, tags: seq<Tag>, j: nat): Bytes
    requires c.Shaped() && j < |tags|
  {
    Leading(c, SeenAfter({}, tags[..j + 1]))
  }

  lemma {:induction false} AnswerAt(w: Watched, seen: set<nat>, run: seq<Segment>, tags: seq<Tag>,
                                    answers: seq<Result>, j: nat)
    requires w.c.Shaped() && RightAnswers(w, seen, run, tags, answers) && j < |tags|
    ensures tags[j].Ours? ==> !answers[j].status.Fatal()
    ensures Concerns(w, run[j]) && !answers[j].status.Fatal() ==>
              answers[j].payload == Leading(w.c, SeenAfter(seen, tags[..j + 1]))
    decreases j
  {
    hide Concerns, Leading;
    assert tags[..j + 1][1..] == tags[1..][..j];
    if j == 0 {
      assert tags[..1][1..] == [];
    } else {
      AnswerAt(w, SeenWith(seen, tags[0]), run[1..], tags[1..], answers[1..], j - 1);
    }
  }

  /** Along any scheduled run our segments are accepted and every answer about the stream is a prefix of it. */
  lemma PayloadAlongARun(config: Config, w: Watched, s: State, run: seq<Segment>, tags: seq<Tag>, last: Option<U64>,
                         j: nat)
    requires Scene(config, w, s, run, tags, {}, [], last) && j < |tags|
    requires forall p | p in run :: |p.payload| < TWO_31
    ensures w.c.Valid() && |Answers(config, s, run)| == |tags| == |run|
    ensures tags[j].Ours? ==> Answered(w, run, Answers(config, s, run), j)
    ensures Answered(w, run, Answers(config, s, run), j) ==>
            Answers(config, s, run)[j].payload == Inspected(w.c, tags, j)
  {
    CourseSizes(config, w, s, run, tags, {}, [], last);
    if tags[j].Ours? {
      OursConcern(w, run, tags, j);
    }
    hide Scene, Course, Run, Holds, Answers, Concerns, Accounted, RightAnswers, SeenAfter, Schedule;
    var _ := RunGrid(config, w, s, run, tags, {}, [], last);
    AnswersSize(config, s, run);
    AnswerAt(w, {}, run, tags, Answers(config, s, run), j);
  }

  lemma {:induction false} AnswersSize(config: Config, s: State, run: seq<Segment>)
    requires forall p | p in run :: |p.payload| < TWO_31
    ensures |Answers(config, s, run)| == |run|
    decreases |run|
  {
    hide Inserted;
    if run != [] {
      AnswersSize(config, Inserted(config, s, run[0]).0, run[1..]);
    }
  }

  lemma OursConcern(w: Watched, run: seq<Segment>, tags: seq<Tag>, j: nat)
    requires w.c.Shaped() && Schedule(w, run, tags) && j < |tags| && tags[j].Ours?
    ensures j < |run| && Concerns(w, run[j])
  {
    hide KeyOf, DirectionOf, DataSequence;
    assert Fits(w, run[j], tags[j]);
  }

  /** No cut falls strictly inside the Host value that the whole request would give. */
  ghost predicate ValueUncut(c: Cut) {
    forall m :: 0 <= m < |c.bounds| ==>
      var f := HttpHost(c.bytes); !(f.Host? && f.start < c.bounds[m] < f.start + f.length)
  }

  /** Along any scheduled run of a cut that is recognised, every answer about an HTTP request is what is
      visible of the value of its Host header; if no cut falls inside that value, every answer that names a
      host names the right one. */
  lemma HttpAnswersAlongARun(config: Config, w: Watched, s: State, run: seq<Segment>, tags: seq<Tag>,
                             last: Option<U64>, j: nat)
    requires Scene(config, w, s, run, tags, {}, [], last) && j < |tags|
    requires forall p | p in run :: |p.payload| < TWO_31
    ensures w.c.Shaped() && |Answers(config, s, run)| == |tags|
    ensures tags[j].Ours? ==> Answered(w, run, Answers(config, s, run), j)
    ensures Answered(w, run, Answers(config, s, run), j) ==>
              var found := HttpHost(Answers(config, s, run)[j].payload);
              && found == Truncated(HttpHost(w.c.bytes), |Inspected(w.c, tags, j)|)
              && (ValueUncut(w.c) && found.Host? ==> found == HttpHost(w.c.bytes))
  {
    hide Scene, Answers, Answered, HttpHost, IsStreamStart;
    PayloadAlongARun(config, w, s, run, tags, last, j);
    var m := Reach(SeenAfter({}, tags[..j + 1]), 0, w.c.Count());
    BoundsOrdered(w.c, 0, m);
    HttpHostOfPrefix(w.c.bytes, w.c.bounds[m]);
    MisleadingExactlyInsideValue(w.c.bytes, w.c.bounds[m]);
  }

  /** Along any scheduled run of a recognised cut of a ClientHello, every answer is nothing until the name is
      complete within the inspected bytes, and the right name from then on. */
  lemma TlsAnswersAlongARun(config: Config, w: Watched, s: State, run: seq<Segment>, tags: seq<Tag>,
                            last: Option<U64>, j: nat, h: ClientHello.Hello)
    requires Scene(config, w, s, run, tags, {}, [], last) && j < |tags|
    requires forall p | p in run :: |p.payload| < TWO_31
    requires ClientHello.WellFormed(h) && w.c.bytes == ClientHello.Print(h)
    ensures w.c.Shaped() && |Answers(config, s, run)| == |tags|
    ensures tags[j].Ours? ==> Answered(w, run, Answers(config, s, run), j)
    ensures Answered(w, run, Answers(config, s, run), j) ==>
              TlsSni(Answers(config, s, run)[j].payload) ==
              if ClientHello.NameStart(h) + |h.name| <= Min(|Inspected(w.c, tags, j)|, MAX_TLS_INSPECT)
              then Host(ClientHello.NameStart(h), |h.name|) else Absent
  {
    PayloadAlongARun(config, w, s, run, tags, last, j);
    assert IsStreamStart(w.c.Part(0));
    hide Scene, Answers, Answered, TlsSni, IsStreamStart;
    var m := Reach(SeenAfter({}, tags[..j + 1]), 0, w.c.Count());
    BoundsOrdered(w.c, 0, m);
    ClientHello.ParseOfPrefix(h, w.c.bounds[m]);
    NeverFive(w.c, m);
  }

  /** A stream start is never cut after five bytes of a TLS record. */
  lemma NeverFive(c: Cut, m: nat)
    requires c.Shaped() && IsStreamStart(c.Part(0)) && m <= c.Count() && |c.bytes| > 0 && c.bytes[0] == 0x16
    ensures c.bounds[m] != 5
  {
    if m > 0 {
      BoundsOrdered(c, 1, m);
      MethodsStartWithLetters();
      assert c.Part(0)[0] == 0x16;
    }
  }

  // ---------------------------------------------------------------- exactly when it can go wrong

  /** The host name the HTTP parser reads. */
  function HttpName(payload: Bytes): Option<Bytes> {
    var f := HttpHost(payload);
    if f.Host? && f.start + f.length <= |payload| then Some(payload[f.start..f.start + f.length]) else None
  }

  /** The host name the TLS parser reads. */
  function SniName(payload: Bytes): Option<Bytes> {
    var f := TlsSni(payload);
    if f.Host? && f.start + f.length <= |payload| then Some(payload[f.start..f.start + f.length]) else None
  }

  /** Windows that open at a later start-like segment name nothing, or what the whole stream names. */
  ghost predicate LaterWindowsAgree(c: Cut, name: Bytes -> Option<Bytes>)
    requires c.Shaped()
  {
    forall j: nat, m: nat | 0 < j < m <= c.Count() && IsStreamStart(c.Part(j)) :: Agrees(name, Window(c, j, m), c.bytes)
  }

  lemma HttpInRange(payload: Bytes)
    ensures HttpHost(payload).Host? ==> HttpHost(payload).start + HttpHost(payload).length <= |payload|
  {
    HostStartsAfterPattern(Head(payload, MAX_HTTP_INSPECT), 4);
  }

  /** A prefix of a request names nothing or the right host, unless it ends strictly inside the value. */
  lemma PrefixAgreesIff(bytes: Bytes, n: nat)
    requires n <= |bytes|
    ensures Agrees(HttpName, bytes[..n], bytes) <==>
            var f := HttpHost(bytes); !(f.Host? && f.start < n < f.start + f.length)
  {
    hide HttpHost;
    HttpHostOfPrefix(bytes, n);
    HttpInRange(bytes);
    HttpInRange(bytes[..n]);
    var f := HttpHost(bytes);
    if f.Host? && n >= f.start + f.length {
      assert bytes[..n][f.start..f.start + f.length] == bytes[f.start..f.start + f.length];
    }
  }

  /** The name a prefix of a request gives: as much of the value as is visible. */
  lemma RequestPrefixNames(bytes: Bytes, n: nat)
    requires n <= |bytes|
    ensures var f := HttpHost(bytes);
            && (f.Host? ==> f.start + f.length <= |bytes|)
            && HttpName(bytes[..n]) ==
               if f.Host? && f.start < n then Some(bytes[f.start..Min(f.start + f.length, n)]) else None
  {
    hide HttpHost;
    HttpHostOfPrefix(bytes, n);
    HttpInRange(bytes);
    HttpInRange(bytes[..n]);
    var f := HttpHost(bytes);
    if f.Host? && f.start < n {
      var end := Min(f.start + f.length, n);
      assert bytes[..n][f.start..end] == bytes[f.start..end];
    }
  }

  lemma FirstWindow(c: Cut, m: nat)
    requires c.Shaped() && 0 < m <= c.Count()
    ensures c.bounds[m] <= |c.bytes| && Window(c, 0, m) == c.bytes[..c.bounds[m]]
  {
    BoundsOrdered(c, 0, m);
  }

  /** HTTP inspection, for any cut of a stream, over all runs: no answer ever names a wrong host if and only
      if no cut falls strictly inside the Host value, unless the first segment is not recognised and its
      window never opens, and no window that opens at a later start-like segment names another host. */
  lemma HttpIndependentIff(config: Config, c: Cut, meta: Metadata)
    requires c.Shaped() && meta.protocol == Tcp && Roomy(config, c)
    ensures NamesOnly(config, Watching(c, meta), HttpName) <==>
            (IsStreamStart(c.Part(0)) ==> ValueUncut(c)) && LaterWindowsAgree(c, HttpName)
  {
    hide IsStreamStart, HttpHost, NamesOnly, Agrees, Window, Roomy;
    assert HttpName([]).None? by { EmptyNames(); }
    NamesOnlyIff(config, c, meta, HttpName);
    forall m: nat | 0 < m <= c.Count()
      ensures Agrees(HttpName, Window(c, 0, m), c.bytes) <==>
              var f := HttpHost(c.bytes); !(f.Host? && f.start < c.bounds[m] < f.start + f.length)
    {
      FirstWindow(c, m);
      PrefixAgreesIff(c.bytes, c.bounds[m]);
    }
  }

  const GET: Bytes := [71, 69, 84, 32]
  const HOST: Bytes := [13, 10, 72, 111, 115, 116, 58]

  /** A smallest request for `name`. */
  function Request(name: Bytes): Bytes {
    GET + HOST + [] + name + [CR]
  }

  predicate PlainName(name: Bytes) {
    name != [] && name[0] != SPACE && CR !in name
  }

  lemma RequestReads(name: Bytes, rest: Bytes)
    requires PlainName(name) && |Request(name) + rest| <= MAX_HTTP_INSPECT
    ensures HttpHost(Request(name) + rest) == Host(11, |name|) && HttpName(Request(name) + rest) == Some(name)
    ensures IsStreamStart(Request(name) + rest)
  {
    var bytes := Request(name) + rest;
    assert bytes == GET + HOST + [] + name + [CR] + rest;
    assert GET[..4] == [71, 69, 84, 32];
    HostReadsBack(GET, [], name, rest);
    assert bytes[11..11 + |name|] == name;
    assert METHODS[0] == GET;
    assert METHODS[0] <= bytes;
  }

  /** Two requests on one connection, cut between them: no cut falls inside the first Host value, yet the second request
      opens a window of its own and names another host. */
  lemma PipelinedRequestMisleads(config: Config, meta: Metadata, origin: U32, a: Bytes, b: Bytes)
    requires PlainName(a) && PlainName(b) && a != b && 24 + |a| + |b| <= MAX_HTTP_INSPECT
    ensures var c := Cut(origin, Request(a) + Request(b), [0, 12 + |a|, 24 + |a| + |b|]);
            && c.Shaped() && ValueUncut(c) && !LaterWindowsAgree(c, HttpName)
            && (meta.protocol == Tcp && Roomy(config, c) ==> !NamesOnly(config, Watching(c, meta), HttpName))
  {
    hide HttpHost, IsStreamStart, HttpName, NamesOnly, Roomy, Request;
    RequestSize(a);
    RequestSize(b);
    RequestReads(a, Request(b));
    RequestReads(b, []);
    var c := Cut(origin, Request(a) + Request(b), [0, 12 + |a|, 24 + |a| + |b|]);
    assert c.Shaped();
    assert Request(b) + [] == Request(b) == c.Part(1) == Window(c, 1, 2);
    assert !Agrees(HttpName, Window(c, 1, 2), c.bytes);
    if meta.protocol == Tcp && Roomy(config, c) {
      HttpIndependentIff(config, c, meta);
    }
  }

  lemma RequestSize(name: Bytes)
    ensures |Request(name)| == 12 + |name|
  {}

  lemma EmptyNames()
    ensures HttpName([]).None? && SniName([]).None?
  {}

  /** What a printed ClientHello looks like to the recogniser: six bytes and record version 3 are needed. A record cut
      earlier is queued, with everything after it, and never inspected. */
  lemma RecordStartIff(h: ClientHello.Hello, n: nat)
    requires ClientHello.WellFormed(h) && n <= |ClientHello.Print(h)|
    ensures IsStreamStart(ClientHello.Print(h)[..n]) <==> n >= 6 && h.major == 3
  {
    ClientHello.RecordHead(h);
    var part := ClientHello.Print(h)[..n];
    MethodsStartWithLetters();
    hide ClientHello.Print, ClientHello.WellFormed;
    assert forall i :: 0 <= i < |METHODS| && METHODS[i] <= part ==> METHODS[i][0] == part[0];
  }

  /** TLS inspection, for any cut of a ClientHello, over all runs: no answer ever names a wrong host if and
      only if no window that opens at a later start-like segment names another one. */
  lemma TlsIndependentIff(config: Config, c: Cut, meta: Metadata, h: ClientHello.Hello)
    requires c.Shaped() && meta.protocol == Tcp && Roomy(config, c)
    requires ClientHello.WellFormed(h) && c.bytes == ClientHello.Print(h)
    ensures NamesOnly(config, Watching(c, meta), SniName) <==> LaterWindowsAgree(c, SniName)
  {
    hide IsStreamStart, TlsSni, NamesOnly, Window, Roomy;
    assert SniName([]).None? by { EmptyNames(); }
    NamesOnlyIff(config, c, meta, SniName);
    ClientHello.RecordHead(h);
    if IsStreamStart(c.Part(0)) {
      forall m: nat | 0 < m <= c.Count() ensures Agrees(SniName, Window(c, 0, m), c.bytes) {
        FirstWindow(c, m);
        NeverFive(c, m);
        RecordPrefixAgrees(h, c.bounds[m]);
      }
    }
    hide Agrees;
  }

  lemma RecordPrefixAgrees(h: ClientHello.Hello, n: nat)
    requires ClientHello.WellFormed(h) && n <= |ClientHello.Print(h)| && n != 5
    ensures Agrees(SniName, ClientHello.Print(h)[..n], ClientHello.Print(h))
  {
    hide TlsSni, SniName, ClientHello.NameStart;
    var bytes := ClientHello.Print(h);
    ClientHello.RecordHead(h);
    ClientHello.ParseOfPrefix(h, n);
    ClientHello.ParseOfPrefix(h, |bytes|);
    hide ClientHello.Print, ClientHello.WellFormed;
    assert bytes[..|bytes|] == bytes;
    CompleteNameAgrees(bytes, n, ClientHello.NameStart(h), |h.name|);
  }

  /** The name a leading part of a ClientHello gives. */
  lemma RecordPrefixNames(h: ClientHello.Hello, n: nat)
    requires ClientHello.WellFormed(h) && n <= |ClientHello.Print(h)| && n != 5
    ensures SniName(ClientHello.Print(h)[..n]) ==
            if ClientHello.NameStart(h) + |h.name| <= Min(n, MAX_TLS_INSPECT) then Some(h.name) else None
  {
    hide TlsSni, ClientHello.NameStart;
    ClientHello.ParseOfPrefix(h, n);
    if ClientHello.NameStart(h) + |h.name| <= Min(n, MAX_TLS_INSPECT) {
      ClientHello.NameInPrefix(h, n);
    }
    hide ClientHello.Print, ClientHello.WellFormed;
  }

  /** A name that is found once it is complete is the same from then on. */
  lemma CompleteNameAgrees(bytes: Bytes, n: nat, start: nat, length: nat)
    requires n <= |bytes|
    requires TlsSni(bytes[..n]) == if start + length <= Min(n, MAX_TLS_INSPECT) then Host(start, length) else Absent
    requires TlsSni(bytes) == if start + length <= Min(|bytes|, MAX_TLS_INSPECT) then Host(start, length) else Absent
    ensures Agrees(SniName, bytes[..n], bytes)
  {
    hide TlsSni;
    if start + length <= n {
      assert bytes[..n][start..start + length] == bytes[start..start + length];
    }
  }
}
