/** What one TCP segment does to a bounded inspection stream: the specification of
    include/dpdk/spi/spi_tcp_reassembly.cpp. */
module TcpReassembly {
  import opened Machine
  import opened Packet

  // ---------------------------------------------------------------- data

  datatype Config = Config(
    enabled: bool,
    timeoutCycles: U64,
    maxStreams: nat,
    maxBytesPerDirection: nat,
    maxOutOfOrder: nat,
    budget: nat,
    dropConflicting: bool)

  datatype Status = Disabled | Waiting | Ready | ConflictingOverlap | ResourceLimit {
    predicate Fatal() { this == ConflictingOverlap || this == ResourceLimit }
  }

  datatype Pending = Pending(sequence: U32, payload: Bytes)

  datatype Direction = Direction(
    baseKnown: bool,
    base: U32,
    next: U32,
    contiguous: Bytes,
    pending: seq<Pending>)

  type DirectionIndex = i: nat | i < 2

  datatype Stream = Stream(first: Direction, second: Direction, lastSeen: U64) {
    function At(i: DirectionIndex): Direction {
      if i == 0 then first else second
    }
    function With(i: DirectionIndex, d: Direction): Stream {
      if i == 0 then this.(first := d) else this.(second := d)
    }
  }

  const EMPTY_DIRECTION := Direction(false, 0, 0, [], [])

  datatype Endpoint = Endpoint(address: Address, port: U16)
  datatype StreamKey = StreamKey(low: Endpoint, high: Endpoint, version: IpVersion)

  /** Everything the reassembler owns. */
  datatype State = State(streams: map<StreamKey, Stream>, buffered: nat)

  datatype Result = Result(status: Status, payload: Bytes)

  /** One call of `Insert`. */
  datatype Segment = Segment(meta: Metadata, payload: Bytes, now: U64)

  // ---------------------------------------------------------------- keys

  /** `memcmp(a, b) < 0` for buffers of equal size. */
  predicate BytesLess(a: Bytes, b: Bytes)
    requires |a| == |b|
  {
    |a| > 0 && (a[0] < b[0] || (a[0] == b[0] && BytesLess(a[1..], b[1..])))
  }

  predicate EndpointLess(lhs: Endpoint, rhs: Endpoint) {
    BytesLess(lhs.address, rhs.address) || (lhs.address == rhs.address && lhs.port < rhs.port)
  }

  /** A 32-bit word copied to the head of a zeroed 16-byte buffer on a little-endian host. */
  function WordBytes(w: U32): Address {
    [w % 256, w / 256 % 256, w / 65536 % 256, w / 16777216, 0, 0, 0, 0, 0, 0, 0, 0, 0, 0, 0, 0]
  }

  function Source(m: Metadata): Endpoint {
    Endpoint(if m.version.Ipv4? then WordBytes(m.sourceIp) else m.sourceIp6, m.sourcePort)
  }

  function Destination(m: Metadata): Endpoint {
    Endpoint(if m.version.Ipv4? then WordBytes(m.destinationIp) else m.destinationIp6, m.destinationPort)
  }

  function KeyOf(m: Metadata): StreamKey {
    if EndpointLess(Source(m), Destination(m))
    then StreamKey(Source(m), Destination(m), m.version)
    else StreamKey(Destination(m), Source(m), m.version)
  }

  function DirectionOf(m: Metadata): DirectionIndex {
    if EndpointLess(Source(m), Destination(m)) then 0 else 1
  }

  /** The SYN flag consumes one sequence number. */
  function DataSequence(m: Metadata): U32 {
    Add32(m.tcpSequence, if m.tcpFlags / 2 % 2 == 1 then 1 else 0)
  }

  // ---------------------------------------------------------------- one segment

  function Ascii(s: string): Bytes {
    seq(|s|, i requires 0 <= i < |s| => s[i] as int % 256)
  }

  const METHODS: seq<Bytes> :=
    [Ascii("GET "), Ascii("POST "), Ascii("PUT "), Ascii("HEAD "), Ascii("DELETE "), Ascii("OPTIONS "), Ascii("PATCH ")]

  predicate IsStreamStart(payload: Bytes) {
    || (|payload| >= 6 && payload[0] == 0x16 && payload[1] == 0x03 && payload[5] == 0x01)
    || exists i :: 0 <= i < |METHODS| && METHODS[i] <= payload
  }

  predicate HasCapacity(config: Config, buffered: nat, additional: nat) {
    additional <= config.budget - Min(config.budget, buffered)
  }

  /** Index of the first queued segment that starts at `sequence`, or the queue length. */
  function FirstAt(pending: seq<Pending>, sequence: U32): (i: nat)
    ensures i <= |pending|
    ensures i < |pending| ==> pending[i].sequence == sequence
    ensures forall j :: 0 <= j < i ==> pending[j].sequence != sequence
  {
    if pending == [] || pending[0].sequence == sequence then 0
    else 1 + FirstAt(pending[1..], sequence)
  }

  /** The outcome of handing one segment to one direction. */
  datatype Added = Added(direction: Direction, buffered: nat, status: Status)

  function Overlap(config: Config, d: Direction, sequence: U32, payload: Bytes): Status {
    var offset := SequenceDistance(sequence, d.base);
    var mismatch := if config.dropConflicting then ConflictingOverlap else Waiting;
    if offset < 0 then mismatch
    else if offset >= |d.contiguous| then Waiting
    else
      var overlap := Min(|payload|, |d.contiguous| - offset);
      if payload[..overlap] == d.contiguous[offset..offset + overlap] then Waiting else mismatch
  }

  function Queue(config: Config, buffered: nat, d: Direction, sequence: U32, payload: Bytes): Added {
    if |d.pending| >= config.maxOutOfOrder || !HasCapacity(config, buffered, |payload|) then
      Added(d, buffered, ResourceLimit)
    else
      var i := FirstAt(d.pending, sequence);
      if i < |d.pending| then
        Added(d, buffered, if d.pending[i].payload == payload then Waiting else ConflictingOverlap)
      else
        Added(d.(pending := d.pending + [Pending(sequence, payload)]), buffered + |payload|, Waiting)
  }

  /** Move queued segment `i` to the end of the contiguous prefix. */
  function Absorb(d: Direction, i: nat): Direction
    requires i < |d.pending|
  {
    d.(contiguous := d.contiguous + d.pending[i].payload,
    next := Add32(d.next, |d.pending[i].payload|),
    pending := d.pending[..i] + d.pending[i + 1..])
  }

  /** Absorb queued segments as long as one starts exactly at the next expected byte. */
  function Drain(limit: nat, d: Direction): (Direction, Status)
    decreases |d.pending|
  {
    var i := FirstAt(d.pending, d.next);
    if i == |d.pending| then (d, Ready)
    else if |d.contiguous| + |d.pending[i].payload| > limit then (d, ResourceLimit)
    else Drain(limit, Absorb(d, i))
  }

  function Append(config: Config, buffered: nat, d: Direction, sequence: U32, payload: Bytes): Added {
    if !HasCapacity(config, buffered, |payload|) || |d.contiguous| + |payload| > config.maxBytesPerDirection then
      Added(d, buffered, ResourceLimit)
    else
      var grown := d.(contiguous := d.contiguous + payload, next := Add32(sequence, |payload|));
      var (drained, status) := Drain(config.maxBytesPerDirection, grown);
      Added(drained, buffered + |payload|, status)
  }

  /** The direction once a possible stream start has fixed the base sequence. */
  function Rebased(d: Direction, sequence: U32): Direction {
    if d.baseKnown then d else d.(baseKnown := true, base := sequence, next := sequence)
  }

  /** The caller hands over at most 65536 payload bytes; the serial arithmetic is meaningful
      for anything below half the sequence space. */
  function Add(config: Config, buffered: nat, d: Direction, sequence: U32, payload: Bytes): Added
    requires |payload| < TWO_31
  {
    if payload == [] then Added(d, buffered, Waiting)
    else if !d.baseKnown && !IsStreamStart(payload) then Queue(config, buffered, d, sequence, payload)
    else
      var b := Rebased(d, sequence);
      var distance := SequenceDistance(sequence, b.next);
      if distance == 0 then Append(config, buffered, b, sequence, payload)
      else if distance > 0 then Queue(config, buffered, b, sequence, payload)
      else if Overlap(config, b, sequence, payload) == ConflictingOverlap then Added(b, buffered, ConflictingOverlap)
      else if SequenceDistance(Add32(sequence, |payload|), b.next) <= 0 then Added(b, buffered, Waiting)
      else
        TrimIsShorterThanPayload(sequence, b.next, |payload|);
        Append(config, buffered, b, b.next, payload[-distance..])
  }

  /** Whenever the code trims an overlapping head, something is left over: the trim never
      reaches the end of the payload, and the one distance whose negation overflows a 32-bit
      integer is never negated. */
  lemma TrimIsShorterThanPayload(sequence: U32, next: U32, size: nat)
    requires size < TWO_31
    requires SequenceDistance(sequence, next) < 0
    requires SequenceDistance(Add32(sequence, size), next) > 0
    ensures 0 < -SequenceDistance(sequence, next) < size
    ensures SequenceDistance(Add32(sequence, size), next) == size + SequenceDistance(sequence, next)
  {}

  // ---------------------------------------------------------------- accounting

  function PendingBytes(pending: seq<Pending>): nat {
    if pending == [] then 0 else |pending[0].payload| + PendingBytes(pending[1..])
  }

  function DirectionBytes(d: Direction): nat {
    |d.contiguous| + PendingBytes(d.pending)
  }

  function StreamBytes(s: Stream): nat {
    DirectionBytes(s.first) + DirectionBytes(s.second)
  }

  /** Payload bytes held by all streams. */
  ghost function TotalBytes(streams: map<StreamKey, Stream>): nat {
    if streams == map[] then 0
    else
      var k :| k in streams;
      StreamBytes(streams[k]) + TotalBytes(streams - {k})
  }

  /** What the code keeps true of every direction of every live stream. */
  ghost predicate DirectionOk(config: Config, d: Direction) {
    && |d.contiguous| <= config.maxBytesPerDirection
    && |d.pending| <= config.maxOutOfOrder
    && (forall p | p in d.pending :: p.payload != [])
    && DistinctSequences(d.pending)
    && (!d.baseKnown ==> d.contiguous == [])
    && (d.baseKnown ==> d.next == Add32(d.base, |d.contiguous|) && FirstAt(d.pending, d.next) == |d.pending|)
  }

  ghost predicate DistinctSequences(pending: seq<Pending>) {
    forall i, j :: 0 <= i < j < |pending| ==> pending[i].sequence != pending[j].sequence
  }

  ghost predicate StreamOk(config: Config, s: Stream) {
    DirectionOk(config, s.first) && DirectionOk(config, s.second)
  }

  /** The byte counter is exact and every cap holds. */
  ghost predicate Accounted(config: Config, s: State) {
    && s.buffered == TotalBytes(s.streams)
    && s.buffered <= config.budget
    && |s.streams| <= config.maxStreams
    && forall k | k in s.streams :: StreamOk(config, s.streams[k])
  }

  // ---------------------------------------------------------------- whole calls

  /** An idle stream: the unsigned age exceeds the timeout (a zero timeout disables ageing). */
  predicate Expired(config: Config, s: Stream, now: U64) {
    config.timeoutCycles != 0 && Sub64(now, s.lastSeen) > config.timeoutCycles
  }

  /** The stream, if there is one, is not idle. */
  predicate Awake(config: Config, s: State, key: StreamKey, now: U64) {
    key in s.streams ==> !Expired(config, s.streams[key], now)
  }

  function Live(config: Config, streams: map<StreamKey, Stream>, now: U64): map<StreamKey, Stream> {
    map k | k in streams && !Expired(config, streams[k], now) :: streams[k]
  }

  ghost function Purged(config: Config, s: State, now: U64): State {
    var live := Live(config, s.streams, now);
    State(live, TotalBytes(live))
  }

  /** The stream a segment belongs to, created on first sight. */
  function StreamFor(live: State, p: Segment): Stream {
    var key := KeyOf(p.meta);
    if key in live.streams then live.streams[key] else Stream(EMPTY_DIRECTION, EMPTY_DIRECTION, p.now)
  }

  predicate Admits(config: Config, live: State, p: Segment) {
    KeyOf(p.meta) in live.streams || |live.streams| < config.maxStreams
  }

  function AddedTo(config: Config, live: State, p: Segment): Added
    requires |p.payload| < TWO_31
  {
    Add(config, live.buffered, StreamFor(live, p).At(DirectionOf(p.meta)), DataSequence(p.meta), p.payload)
  }

  function Stored(stream: Stream, p: Segment, d: Direction): Stream {
    stream.(lastSeen := p.now).With(DirectionOf(p.meta), d)
  }

  ghost function Erased(s: State, key: StreamKey): State {
    State(s.streams - {key}, TotalBytes(s.streams - {key}))
  }

  /** What a TCP segment does once idle streams are gone. */
  ghost function Delivered(config: Config, live: State, p: Segment): (State, Result)
    requires |p.payload| < TWO_31
  {
    if !Admits(config, live, p) then (live, Result(ResourceLimit, []))
    else
      var key, added := KeyOf(p.meta), AddedTo(config, live, p);
      if added.status.Fatal() then (Erased(live, key), Result(added.status, []))
      else
        var stream := Stored(StreamFor(live, p), p, added.direction);
        (State(live.streams[key := stream], added.buffered), Result(added.status, added.direction.contiguous))
  }

  /** The specification of `Insert`: the state it leaves and what it reports. */
  ghost function Inserted(config: Config, s: State, p: Segment): (State, Result)
    requires |p.payload| < TWO_31
  {
    if !config.enabled || p.meta.protocol != Tcp then (s, Result(Disabled, []))
    else Delivered(config, Purged(config, s, p.now), p)
  }

  /** A whole run of `Insert` calls. */
  ghost function Run(config: Config, s: State, run: seq<Segment>): State
    requires forall p | p in run :: |p.payload| < TWO_31
    decreases |run|
  {
    if run == [] then s else Run(config, Inserted(config, s, run[0]).0, run[1..])
  }

  /** What a worker does with its reassembler: calls, and the clean-up of idle streams between bursts. */
  datatype Operation = Call(p: Segment) | Cleanup(now: U64)

  predicate SmallCalls(ops: seq<Operation>) {
    forall i :: 0 <= i < |ops| && ops[i].Call? ==> |ops[i].p.payload| < TWO_31
  }

  ghost function Operated(config: Config, s: State, ops: seq<Operation>): State
    requires SmallCalls(ops)
    decreases |ops|
  {
    if ops == [] then s
    else
      match ops[0]
      case Call(p) => Operated(config, Inserted(config, s, p).0, ops[1..])
      case Cleanup(now) => Operated(config, Purged(config, s, now), ops[1..])
  }
}
