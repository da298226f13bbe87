/** The decision for one parsed packet: flow cache, DPI attempt and SPI result, and what they leave in the
    flow table. */
module PacketDecision {
  import opened Machine
  import opened Packet
  import opened Prefix
  import opened RuleMatching
  import opened TcpReassembly
  import opened TcpOrder
  import opened TcpRuns
  import HostExtraction
  import ClientHello
  import HostPipeline
  import FlowStore

  datatype ParseStatus = Ready | AwaitsFragments | Malformed

  /** What hostname inspection came to: the payload could not be read, the stream was refused, no name is known yet, or
      the DPI table was asked. */
  datatype Inspection = Unreadable | Refused | NoNameYet | Asked(dpiMatched: bool)

  datatype Facts = Facts(
    parse: ParseStatus,
    cached: Option<Action>,
    spi: Classification,
    meta: Metadata,
    inspection: Inspection,
    firstInsert: bool,
    secondInsert: bool,
    macKnown: bool)

  const TLS_PORT: U16 := 443
  const HTTP_PORT: U16 := 80

  /** The three tests a packet must pass to be inspected: TCP, a web destination port, not a response. */
  predicate Inspects(m: Metadata) {
    var source, destination := Swap16(m.sourcePort), Swap16(m.destinationPort);
    && m.protocol.Tcp?
    && (destination == TLS_PORT || destination == HTTP_PORT)
    && !((source == HTTP_PORT || source == TLS_PORT) && destination >= 1024)
  }

  /** The response test never decides: a packet that reaches it has a web destination port, which is below 1024. */
  lemma ResponseTestNeverDecides(m: Metadata)
    ensures Inspects(m) <==> m.protocol.Tcp? && Swap16(m.destinationPort) in {443, 80}
  {}

  datatype Policy = Policy(dpiEnabled: bool, overflowDrop: bool, dropUnmatched: bool)

  /** `stored` is what the flow table has been given for the packet's key. */
  datatype Attempt = Attempt(action: Action, matched: bool, deferred: bool, stored: Option<Action>)

  const PASS: Attempt := Attempt(Forward, false, false, None)

  /** An insert into the flow table decides only if it succeeds or overflow means drop. */
  function Cached(policy: Policy, inserted: bool, action: Action): Attempt {
    if inserted then Attempt(action, true, false, Some(action))
    else if policy.overflowDrop then Attempt(Drop, true, false, None)
    else PASS
  }

  /** The DPI attempt on a packet the flow cache does not know. */
  function TryDpi(policy: Policy, f: Facts): Attempt {
    if !policy.dpiEnabled then PASS
    else if f.spi.matched && (f.spi.action == Drop || !f.spi.l7Required) then PASS
    else if f.spi.matched && f.spi.link != NO_LINK then Cached(policy, f.firstInsert, f.spi.action)
    else if !Inspects(f.meta) then PASS
    else
      match f.inspection
      case Unreadable => Attempt(Forward, false, true, None)
      case Refused => Attempt(Drop, true, false, None)
      case NoNameYet => Attempt(Forward, false, true, None)
      case Asked(dpiMatched) =>
        if dpiMatched then Cached(policy, f.firstInsert, if f.spi.matched then f.spi.action else Forward) else PASS
  }

  /** The final decision. */
  function Decide(policy: Policy, f: Facts): Attempt {
    if f.cached.Some? then Attempt(f.cached.value, true, false, None)
    else
      var attempt := TryDpi(policy, f);
      if attempt.matched then attempt
      else if !f.spi.matched then PASS
      else if attempt.deferred then Attempt(f.spi.action, true, false, None)
      else Cached(policy, f.secondInsert, f.spi.action)
  }

  /** The packet is discarded on account of the decision, before a port is looked for. */
  predicate Discards(policy: Policy, decision: Attempt) {
    (decision.matched && decision.action == Drop) || (policy.dropUnmatched && !decision.matched)
  }

  // ---------------------------------------------------------------- what is decided

  /** An SPI forward rule that wants inspection and whose group is bound to a DPI group: the result is cached
      at once. */
  predicate Bound(policy: Policy, f: Facts) {
    policy.dpiEnabled && f.spi.matched && f.spi.action == Forward && f.spi.l7Required && f.spi.link != 0xFFFF_FFFF
  }

  /** Web traffic that no SPI rule has settled. */
  predicate Examined(policy: Policy, f: Facts) {
    && policy.dpiEnabled && f.meta.protocol == Tcp && Swap16(f.meta.destinationPort) in {443, 80}
    && (f.spi.matched ==> f.spi.action == Forward && f.spi.l7Required && f.spi.link == 0xFFFF_FFFF)
  }

  /** The insert of the DPI attempt is tried. */
  predicate TriesFirst(policy: Policy, f: Facts) {
    Bound(policy, f) || (Examined(policy, f) && f.inspection == Asked(true))
  }

  /** The insert of the SPI result is tried. */
  predicate TriesSecond(policy: Policy, f: Facts) {
    && f.spi.matched
    && (Examined(policy, f) ==> f.inspection.Asked?)
    && (TriesFirst(policy, f) ==> !f.firstInsert && !policy.overflowDrop)
  }

  /** Exactly when a packet is dropped by the decision: a cached drop, a refused stream, a drop rule whose
      insert succeeds, or a failed insert where overflow means drop. */
  lemma DropsIff(policy: Policy, f: Facts)
    ensures Decide(policy, f).action == Drop <==>
            if f.cached.Some? then f.cached.value == Drop
            else
              || (Examined(policy, f) && f.inspection == Refused)
              || (TriesFirst(policy, f) && !f.firstInsert && policy.overflowDrop)
              || (TriesSecond(policy, f) && if f.secondInsert then f.spi.action == Drop else policy.overflowDrop)
  {
    ResponseTestNeverDecides(f.meta);
  }

  /** Exactly when a packet counts as matched. */
  lemma MatchesIff(policy: Policy, f: Facts)
    ensures Decide(policy, f).matched <==>
            || f.cached.Some?
            || (Examined(policy, f) && (f.inspection == Refused || (f.spi.matched && !f.inspection.Asked?)))
            || (TriesFirst(policy, f) && (f.firstInsert || policy.overflowDrop))
            || (TriesSecond(policy, f) && (f.secondInsert || policy.overflowDrop))
    ensures !Decide(policy, f).matched ==> Decide(policy, f).action == Forward
    ensures !Decide(policy, f).deferred
  {
    ResponseTestNeverDecides(f.meta);
  }

  /** What the flow table remembers: exactly the inserts that are tried and succeed, and always the decision taken. */
  lemma StoresIff(policy: Policy, f: Facts)
    ensures var d := Decide(policy, f);
            && (d.stored.Some? <==>
                f.cached.None?
                && ((TriesFirst(policy, f) && f.firstInsert) || (TriesSecond(policy, f) && f.secondInsert)))
            && (d.stored.Some? ==> d.matched && d.action == d.stored.value)
  {
    ResponseTestNeverDecides(f.meta);
  }

  /** What an examined packet gets, by what its inspection came to. It is never dropped for what the DPI table says. */
  lemma ExaminedGets(policy: Policy, f: Facts)
    requires f.cached.None? && Examined(policy, f)
    ensures var d := Decide(policy, f);
            match f.inspection
            case Unreadable => d == Attempt(Forward, f.spi.matched, false, None)
            case NoNameYet => d == Attempt(Forward, f.spi.matched, false, None)
            case Refused => d == Attempt(Drop, true, false, None)
            case Asked(named) =>
              if (named && f.firstInsert) || (f.spi.matched && f.secondInsert && !(named && policy.overflowDrop))
              then d == Attempt(Forward, true, false, Some(Forward))
              else if (named || f.spi.matched) && policy.overflowDrop then d == Attempt(Drop, true, false, None)
              else d == Attempt(Forward, false, false, None)
  {
    ResponseTestNeverDecides(f.meta);
  }

  // ---------------------------------------------------------------- inspection behind the reassembler

  /** What inspecting a TCP segment comes to, from the reassembler's answer and the DPI table. */
  function Examine(readable: bool, r: Result, destination: U16, dpi: Bytes -> bool): Inspection {
    if !readable then Unreadable
    else if r.status == ConflictingOverlap || r.status == ResourceLimit then Refused
    else if r.status == Waiting || r.status == Status.Ready then
      var name := if destination == TLS_PORT then HostPipeline.SniName(r.payload) else HostPipeline.HttpName(r.payload);
      if name.None? then NoNameYet else Asked(dpi(name.value))
    else Asked(false)
  }

  /** What inspection can come to: unreadable exactly without a payload, refused exactly with a fatal answer of the
      reassembler, and asked about nothing where reassembly does not apply. */
  lemma ExamineCases(readable: bool, r: Result, destination: U16, dpi: Bytes -> bool)
    ensures var i := Examine(readable, r, destination, dpi);
            && (i == Unreadable <==> !readable)
            && (i == Refused <==> readable && r.status.Fatal())
            && (readable && r.status == Disabled ==> i == Asked(false))
  {
    hide HostPipeline.SniName, HostPipeline.HttpName;
  }

  /** The connection's segment is refused: by a full table, or by the guards of its direction. */
  ghost predicate StreamRefuses(config: Config, s: State, p: Segment)
    requires |p.payload| < TWO_31
  {
    var live, key := Purged(config, s, p.now), KeyOf(p.meta);
    if key !in live.streams && |live.streams| >= config.maxStreams then true
    else
      var d := if key in live.streams then live.streams[key].At(DirectionOf(p.meta)) else EMPTY_DIRECTION;
      Refuses(config, live.buffered, d, DataSequence(p.meta), p.payload)
  }

  /** An examined packet behind the reassembler, in any state of it: it is dropped if and only if its segment
      is refused, or an insert that is tried fails and overflow means drop. */
  lemma ExaminedDropsIff(config: Config, s: State, p: Segment, policy: Policy, f: Facts, dpi: Bytes -> bool)
    requires config.enabled && Accounted(config, s) && |p.payload| < TWO_31
    requires f.cached.None? && Examined(policy, f) && f.meta == p.meta
    requires f.inspection == Examine(true, Inserted(config, s, p).1, Swap16(p.meta.destinationPort), dpi)
    ensures Decide(policy, f).action == Drop <==>
            || StreamRefuses(config, s, p)
            || (policy.overflowDrop && f.inspection.Asked?
                && ((f.inspection.dpiMatched && !f.firstInsert)
                    || (!f.inspection.dpiMatched && f.spi.matched && !f.secondInsert)))
  {
    hide Inserted, Decide, Refuses, Conflicts, KeyOf, DirectionOf, DataSequence, Purged, Swap16,
      HostPipeline.SniName, HostPipeline.HttpName, Accounted;
    InsertOutcome(config, s, p);
    ExaminedGets(policy, f);
  }

  /** Evading inspection by contradicting bytes already received gets the packet dropped and the connection
      forgotten. */
  lemma EvasionIsDropped(config: Config, s: State, p: Segment, k: nat, policy: Policy, f: Facts, dpi: Bytes -> bool)
    requires config.enabled && config.dropConflicting && Accounted(config, s) && |p.payload| < TWO_31
    requires KeyOf(p.meta) in s.streams && Awake(config, s, KeyOf(p.meta), p.now)
    requires Contradicts(s.streams[KeyOf(p.meta)].At(DirectionOf(p.meta)), DataSequence(p.meta), p.payload, k)
    requires f.cached.None? && Examined(policy, f) && f.meta == p.meta
    requires f.inspection == Examine(true, Inserted(config, s, p).1, Swap16(p.meta.destinationPort), dpi)
    ensures Decide(policy, f) == Attempt(Drop, true, false, None)
    ensures KeyOf(p.meta) !in Inserted(config, s, p).0.streams
  {
    hide Inserted, Decide, Contradicts, KeyOf, DirectionOf, DataSequence, Awake, Swap16,
      HostPipeline.SniName, HostPipeline.HttpName, Accounted;
    OverlapEvasionIsRefused(config, s, p, k);
    ExaminedGets(policy, f);
  }

  lemma {:induction false} AnswerIsNotDisabled(config: Config, s: State, run: seq<Segment>, j: nat)
    requires config.enabled && (forall p | p in run :: |p.payload| < TWO_31)
    requires j < |run| && run[j].meta.protocol == Tcp
    ensures j < |TcpRuns.Answers(config, s, run)| && TcpRuns.Answers(config, s, run)[j].status != Disabled
    decreases j
  {
    if j == 0 {
      NotDisabled(config, Purged(config, s, run[0].now), run[0]);
    } else {
      hide Inserted;
      AnswerIsNotDisabled(config, Inserted(config, s, run[0]).0, run[1..], j - 1);
    }
  }

  lemma NotDisabled(config: Config, live: State, p: Segment)
    requires |p.payload| < TWO_31
    ensures Delivered(config, live, p).1.status != Disabled
  {
    hide KeyOf, DirectionOf, DataSequence, Add, TotalBytes;
    AddNotDisabled(config, live.buffered, StreamFor(live, p).At(DirectionOf(p.meta)), DataSequence(p.meta), p.payload);
  }

  lemma AddNotDisabled(config: Config, buffered: nat, d: Direction, sequence: U32, payload: Bytes)
    requires |payload| < TWO_31
    ensures Add(config, buffered, d, sequence, payload).status != Disabled
  {
    hide IsStreamStart, SequenceDistance, Add32, Overlap, Append, Queue;
    var b := Rebased(d, sequence);
    var ahead := SequenceDistance(sequence, b.next);
    QueueNotDisabled(config, buffered, d, sequence, payload);
    QueueNotDisabled(config, buffered, b, sequence, payload);
    AppendNotDisabled(config, buffered, b, sequence, payload);
    if ahead < 0 && SequenceDistance(Add32(sequence, |payload|), b.next) > 0 {
      TrimIsShorterThanPayload(sequence, b.next, |payload|);
      AppendNotDisabled(config, buffered, b, b.next, payload[-ahead..]);
    }
  }

  lemma AppendNotDisabled(config: Config, buffered: nat, d: Direction, sequence: U32, payload: Bytes)
    ensures Append(config, buffered, d, sequence, payload).status != Disabled
  {
    var grown := d.(contiguous := d.contiguous + payload, next := Add32(sequence, |payload|));
    DrainNotDisabled(config.maxBytesPerDirection, grown);
  }

  lemma {:induction false} DrainNotDisabled(limit: nat, d: Direction)
    ensures Drain(limit, d).1 != Disabled
    decreases |d.pending|
  {
    var i := FirstAt(d.pending, d.next);
    if i < |d.pending| {
      DrainNotDisabled(limit, Absorb(d, i));
    }
  }

  /** Along any scheduled run, each of our segments is taken, and inspected is a prefix of the stream. */
  lemma OurPayload(config: Config, w: Watched, s: State, run: seq<Segment>, tags: seq<Tag>, last: Option<U64>, j: nat)
    requires Scene(config, w, s, run, tags, {}, [], last) && j < |tags| && tags[j].Ours? && config.enabled
    requires forall p | p in run :: |p.payload| < TWO_31
    ensures w.c.Shaped() && j < |TcpRuns.Answers(config, s, run)|
    ensures var r, n := TcpRuns.Answers(config, s, run)[j], |HostPipeline.Inspected(w.c, tags, j)|;
            && (r.status == Waiting || r.status == Status.Ready) && n <= |w.c.bytes| && r.payload == w.c.bytes[..n]
            && IsStreamStart(w.c.Part(0)) && (exists m :: 0 <= m <= w.c.Count() && n == w.c.bounds[m])
  {
    HostPipeline.PayloadAlongARun(config, w, s, run, tags, last, j);
    assert IsStreamStart(w.c.Part(0));
    hide Scene, TcpRuns.Answers, IsStreamStart, KeyOf, DirectionOf;
    AnswerIsNotDisabled(config, s, run, j);
    var m := Reach(SeenAfter({}, tags[..j + 1]), 0, w.c.Count());
    BoundsOrdered(w.c, 0, m);
  }

  /** End to end for TLS: along any scheduled run of a recognised cut of a ClientHello to port 443, each of
      its packets waits for the name until the name is complete within the inspected bytes, and from then on
      the DPI table is asked for exactly that name. */
  lemma TlsPacketsAskForTheName(config: Config, w: Watched, s: State, run: seq<Segment>, tags: seq<Tag>,
                                last: Option<U64>, j: nat, h: ClientHello.Hello, dpi: Bytes -> bool)
    requires Scene(config, w, s, run, tags, {}, [], last) && j < |tags| && tags[j].Ours? && config.enabled
    requires forall p | p in run :: |p.payload| < TWO_31
    requires ClientHello.WellFormed(h) && w.c.bytes == ClientHello.Print(h)
    ensures w.c.Shaped() && j < |TcpRuns.Answers(config, s, run)|
    ensures Examine(true, TcpRuns.Answers(config, s, run)[j], 443, dpi) ==
            if ClientHello.NameStart(h) + |h.name| <= Min(|HostPipeline.Inspected(w.c, tags, j)|, 512)
            then Asked(dpi(h.name)) else NoNameYet
  {
    hide Scene, TcpRuns.Answers, HostPipeline.SniName, HostPipeline.HttpName, HostPipeline.Inspected, IsStreamStart,
      ClientHello.NameStart;
    OurPayload(config, w, s, run, tags, last, j);
    var n := |HostPipeline.Inspected(w.c, tags, j)|;
    var m :| 0 <= m <= w.c.Count() && n == w.c.bounds[m];
    ClientHello.RecordHead(h);
    HostPipeline.NeverFive(w.c, m);
    HostPipeline.RecordPrefixNames(h, n);
    hide ClientHello.Print, ClientHello.WellFormed;
  }

  /** And for HTTP: each packet waits until the Host value has begun, and from then on asks for what is
      visible of it. */
  lemma HttpPacketsAskForTheHost(config: Config, w: Watched, s: State, run: seq<Segment>, tags: seq<Tag>,
                                 last: Option<U64>, j: nat, dpi: Bytes -> bool)
    requires Scene(config, w, s, run, tags, {}, [], last) && j < |tags| && tags[j].Ours? && config.enabled
    requires forall p | p in run :: |p.payload| < TWO_31
    ensures w.c.Shaped() && j < |TcpRuns.Answers(config, s, run)|
    ensures var f, n := HostExtraction.HttpHost(w.c.bytes), |HostPipeline.Inspected(w.c, tags, j)|;
            && n <= |w.c.bytes| && (f.Host? ==> f.start + f.length <= |w.c.bytes|)
            && Examine(true, TcpRuns.Answers(config, s, run)[j], 80, dpi) ==
               if f.Host? && f.start < n then Asked(dpi(w.c.bytes[f.start..Min(f.start + f.length, n)])) else NoNameYet
  {
    hide Scene, TcpRuns.Answers, HostPipeline.SniName, HostPipeline.HttpName, HostPipeline.Inspected, IsStreamStart,
      HostExtraction.HttpHost;
    OurPayload(config, w, s, run, tags, last, j);
    HostPipeline.RequestPrefixNames(w.c.bytes, |HostPipeline.Inspected(w.c, tags, j)|);
  }

  // ---------------------------------------------------------------- the flow table's replies

  /** The flow table's reply to the insert of a decision for a packet with key `key`. */
  ghost predicate Replies(store: FlowStore.Store, key: FlowStore.FlowKey, action: Action, now: U64, place: Option<nat>,
                          inserted: bool)
    requires FlowStore.Consistent(store)
  {
    FlowStore.BoundedByConsistency(store);
    inserted <==> FlowStore.Inserted(store, key, 1, action, now, place).1 == FlowStore.Ok
  }

  /** A packet that a drop rule matches and the flow cache does not answer, with the flow table in state
      `store` when its decision is inserted. It is discarded by the rule if and only if the key is known, or
      there is a free slot and the hash table takes the key, or overflow means drop. Otherwise it is treated
      as unmatched, and forwarded unless unmatched packets are dropped too. */
  lemma DropRuleEnforcedIff(policy: Policy, f: Facts, store: FlowStore.Store, key: FlowStore.FlowKey, now: U64,
                            place: Option<nat>)
    requires f.cached.None? && f.spi.matched && f.spi.action == Drop
    requires FlowStore.Consistent(store) && FlowStore.ValidPlace(store, place) &&
             Replies(store, key, Drop, now, place, f.secondInsert)
    ensures var kept := key in store.index || (store.free != [] && place.Some?) || policy.overflowDrop;
            && (Decide(policy, f).(stored := None) == if kept then Attempt(Drop, true, false, None) else PASS)
            && (Discards(policy, Decide(policy, f)) <==> kept || policy.dropUnmatched)
  {
    hide FlowStore.Consistent;
    ConsistentSlots(store);
    FlowStore.BoundedByConsistency(store);
    FlowStore.InsertRefinesMap(store, key, 1, Drop, now, place);
    FlowStore.ViewKeys(store, key);
    hide FlowStore.View, FlowStore.Inserted;
  }

  lemma ConsistentSlots(store: FlowStore.Store)
    requires FlowStore.Consistent(store)
    ensures FlowStore.SlotsOk(store)
  {}
}
