/** SPI rules as the classifier compiles and matches them: filters, ACL rules, the 16-bit result encoding,
    chunks, and the first-hit walk. The ACL library appears as a contract on its answers. */
module RuleMatching {
  import opened Machine
  import opened Packet
  import opened Prefix

  // ---------------------------------------------------------------- filters and groups

  datatype Destination = Anywhere | Host(address: U32) | Network(network: U32, length: nat)

  /** Addresses and ports in host byte order; an absent field matches anything. */
  datatype Filter = Filter(
    protocol: Protocol,
    source: Option<U32>,
    destination: Destination,
    sourcePort: Option<U16>,
    destinationPort: Option<U16>,
    name: string)

  datatype Group = Group(
    name: string,
    precedence: U32,
    action: Action,
    filters: seq<Filter>,
    l7Required: bool,
    link: U32,
    linkName: string)

  const NO_LINK: U32 := 0xFFFF_FFFF

  datatype Classification = Classification(
    groupName: string,
    filterName: string,
    precedence: U32,
    link: U32,
    action: Action,
    matched: bool,
    l7Required: bool)

  const MISS: Classification := Classification("", "", 0, NO_LINK, Forward, false, false)

  function Hit(group: Group, filterName: string): Classification {
    Classification(group.name, filterName, group.precedence, group.link, group.action, true, group.l7Required)
  }

  /** A match reports its group, field by field, under the given filter name. */
  predicate Reports(r: Classification, group: Group, filterName: string) {
    && r.matched && r.groupName == group.name && r.filterName == filterName && r.precedence == group.precedence
    && r.action == group.action && r.l7Required == group.l7Required && r.link == group.link
  }

  /** What CIDR parsing establishes: the stored network has no host bits. */
  predicate WellFormed(f: Filter) {
    f.destination.Network? ==>
      f.destination.length <= 32 &&
        And(f.destination.network, PrefixMask(f.destination.length), 32) == f.destination.network
  }

  /** The mask applied when a CIDR string is parsed makes the filter well formed. */
  lemma ParsedCidrIsWellFormed(f: Filter, address: U32, length: nat)
    requires length <= 32 && f.destination == Network(And(address, PrefixMask(length), 32), length)
    ensures WellFormed(f)
  {
    hide And, PrefixMask, Pow2;
    var size := Pow2(32 - length);
    MaskClearsHostBits(address, length);
    var network := address - address % size;
    MaskClearsHostBits(network, length);
    assert address == size * (address / size) + address % size;
    RemainderUnique(network, size, address / size, 0);
  }

  // ---------------------------------------------------------------- what a filter means

  function FirstWord(a: Address): U32 {
    var b0: int, b1: int, b2: int, b3: int := a[0], a[1], a[2], a[3];
    ((b0 * 256 + b1) * 256 + b2) * 256 + b3
  }

  /** The 32-bit source the classifier looks at: the IPv4 address, or the head of the IPv6 address. */
  function SourceWord(m: Metadata): U32 {
    if m.version.Ipv4? then Swap32(m.sourceIp) else FirstWord(m.sourceIp6)
  }

  function DestinationWord(m: Metadata): U32 {
    if m.version.Ipv4? then Swap32(m.destinationIp) else FirstWord(m.destinationIp6)
  }

  /** The first four bytes as a little-endian machine loads them. */
  function RawWord(a: Address): U32 {
    var b0: int, b1: int, b2: int, b3: int := a[0], a[1], a[2], a[3];
    b0 + 256 * (b1 + 256 * (b2 + 256 * b3))
  }

  /** An IPv6 packet is looked at as the IPv4 packet whose addresses are the heads of its own. */
  lemma Ipv6LooksLikeItsHead(m: Metadata)
    requires m.version.Ipv6?
    ensures var head := m.(version := Ipv4, sourceIp := RawWord(m.sourceIp6),
                           destinationIp := RawWord(m.destinationIp6));
            && SourceWord(m) == SourceWord(head) && DestinationWord(m) == DestinationWord(head)
            && forall f: Filter :: FilterMatches(f, m) <==> FilterMatches(f, head)
  {
    HeadIsRaw(m.sourceIp6);
    HeadIsRaw(m.destinationIp6);
    hide FirstWord, RawWord, Swap32, DestinationMatches;
  }

  lemma HeadIsRaw(a: Address)
    ensures FirstWord(a) == Swap32(RawWord(a))
  {
    var b0: int, b1: int, b2: int, b3: int := a[0], a[1], a[2], a[3];
    var low: U16, high: U16 := b0 + 256 * b1, b2 + 256 * b3;
    assert RawWord(a) == low + 0x1_0000 * high;
    Halves(low, high);
    SwapBytes(b0, b1);
    SwapBytes(b2, b3);
    hide Swap16;
  }

  lemma Halves(low: U16, high: U16)
    ensures (low + 0x1_0000 * high) % 0x1_0000 == low && (low + 0x1_0000 * high) / 0x1_0000 == high
  {}

  lemma SwapBytes(b0: Byte, b1: Byte)
    ensures Swap16(b0 + 256 * b1) == b0 * 256 + b1
  {}

  predicate DestinationMatches(d: Destination, w: U32) {
    match d
    case Anywhere => true
    case Host(address) => w == address
    case Network(network, length) => And(w, PrefixMask(length), 32) == network
  }

  predicate PortProtocolMatches(f: Filter, m: Metadata) {
    && f.protocol == m.protocol
    && (f.destinationPort.Some? ==> f.destinationPort.value == Swap16(m.destinationPort))
    && (f.sourcePort.Some? ==> f.sourcePort.value == Swap16(m.sourcePort))
  }

  /** The simple meaning of a filter: every field it names agrees with the packet. */
  predicate FilterMatches(f: Filter, m: Metadata) {
    && PortProtocolMatches(f, m)
    && (f.source.Some? ==> f.source.value == SourceWord(m))
    && DestinationMatches(f.destination, DestinationWord(m))
  }

  // ---------------------------------------------------------------- ACL rules

  const MAX_PRIORITY: int := 0x1FFF_FFFF

  datatype Prefixed = Prefixed(value: U32, bits: nat)
  datatype Range = Range(low: U16, high: U16)

  datatype AclRule = AclRule(
    userdata: U32,
    priority: int,
    protocol: Byte,
    source: Prefixed,
    destination: Prefixed,
    sourcePort: Range,
    destinationPort: Range)

  datatype AclInput = AclInput(source: U32, destination: U32, sourcePort: U16, destinationPort: U16, protocol: Byte)

  function IpProtocol(p: Protocol): Byte {
    if p.Tcp? then 6 else 17
  }

  function InputOf(m: Metadata): AclInput {
    AclInput(SourceWord(m), DestinationWord(m), Swap16(m.sourcePort), Swap16(m.destinationPort), IpProtocol(m.protocol))
  }

  /** Group in the upper half, filter in the lower half, both offset by one and cut to 16 bits. */
  function Userdata(g: nat, f: nat): U32 {
    (g + 1) * TWO_16 % TWO_32 + (f + 1) % TWO_16
  }

  function GroupOf(userdata: U32): U32 {
    (userdata / TWO_16 - 1) % TWO_32
  }

  function FilterOf(userdata: U32): U32 {
    (userdata % TWO_16 - 1) % TWO_32
  }

  function PrefixedOf(d: Destination): Prefixed {
    match d
    case Anywhere => Prefixed(0, 0)
    case Host(address) => Prefixed(address, 32)
    case Network(network, length) => Prefixed(network, length)
  }

  function RangeOf(port: Option<U16>): Range {
    if port.Some? then Range(port.value, port.value) else Range(0, 65535)
  }

  function BuildAclRule(f: Filter, groupIndex: nat, filterIndex: nat, precedence: U32): AclRule {
    AclRule(
      Userdata(groupIndex, filterIndex),
      MAX_PRIORITY - precedence,
      IpProtocol(f.protocol),
      if f.source.Some? then Prefixed(f.source.value, 32) else Prefixed(0, 0),
      PrefixedOf(f.destination),
      RangeOf(f.sourcePort),
      RangeOf(f.destinationPort))
  }

  /** A MASK field compares leading bits, a RANGE field bounds, the protocol is exact. */
  predicate SamePrefix(x: U32, p: Prefixed) {
    p.bits <= 32 && x / Pow2(32 - p.bits) == p.value / Pow2(32 - p.bits)
  }

  predicate InRange(x: U16, r: Range) {
    r.low <= x <= r.high
  }

  predicate RuleAccepts(r: AclRule, x: AclInput) {
    && r.protocol == x.protocol
    && SamePrefix(x.source, r.source)
    && SamePrefix(x.destination, r.destination)
    && InRange(x.sourcePort, r.sourcePort)
    && InRange(x.destinationPort, r.destinationPort)
  }

  lemma ExactPrefix(x: U32, v: U32)
    ensures SamePrefix(x, Prefixed(v, 32)) <==> x == v
    ensures SamePrefix(x, Prefixed(0, 0))
  {
    Pow2Values();
    assert Pow2(0) == 1;
    hide Pow2;
    RemainderUnique(x, TWO_32, 0, x);
  }

  lemma NetworkPrefix(x: U32, network: U32, length: nat)
    requires length <= 32 && And(network, PrefixMask(length), 32) == network
    ensures SamePrefix(x, Prefixed(network, length)) <==> And(x, PrefixMask(length), 32) == network
  {
    hide And, PrefixMask, Pow2;
    var size := Pow2(32 - length);
    MaskClearsHostBits(x, length);
    MaskClearsHostBits(network, length);
    SameQuotient(x, network, size);
  }

  lemma SameQuotient(x: nat, n: nat, size: int)
    requires size >= 1 && n % size == 0
    ensures x / size == n / size <==> x - x % size == n
  {
    assert x == size * (x / size) + x % size;
    assert n == size * (n / size);
    if x - x % size == n {
      RemainderUnique(x, size, n / size, x % size);
    }
  }

  /** The compiled ACL rule accepts exactly the packets the filter means. */
  lemma RuleMeansFilter(f: Filter, m: Metadata, g: nat, i: nat, precedence: U32)
    requires WellFormed(f)
    ensures RuleAccepts(BuildAclRule(f, g, i, precedence), InputOf(m)) <==> FilterMatches(f, m)
  {
    hide SamePrefix, And, PrefixMask, Swap16, SourceWord, DestinationWord, Userdata;
    ExactPrefix(SourceWord(m), if f.source.Some? then f.source.value else 0);
    var w := DestinationWord(m);
    match f.destination {
      case Anywhere => ExactPrefix(w, 0);
      case Host(address) => ExactPrefix(w, address);
      case Network(network, length) => NetworkPrefix(w, network, length);
    }
  }

  /** The result word leads back to its filter exactly when both indices are below 65535. */
  lemma UserdataReadsBack(g: nat, f: nat)
    requires g < TWO_32 - 1 && f < TWO_32 - 1
    ensures GroupOf(Userdata(g, f)) == g && FilterOf(Userdata(g, f)) == f <==> g < 65535 && f < 65535
    ensures g < 65535 && f < 65535 ==> Userdata(g, f) != 0
  {
    UserdataHalves(g, f);
  }

  lemma UserdataHalves(g: nat, f: nat)
    ensures Userdata(g, f) / TWO_16 == (g + 1) % TWO_16 && Userdata(g, f) % TWO_16 == (f + 1) % TWO_16
  {
    var hi, lo := (g + 1) % TWO_16, (f + 1) % TWO_16;
    var k := (g + 1) / TWO_16;
    assert (g + 1) * TWO_16 == TWO_32 * k + hi * TWO_16;
    RemainderUnique((g + 1) * TWO_16, TWO_32, k, hi * TWO_16);
    RemainderUnique(Userdata(g, f), TWO_16, hi, lo);
  }

  // ---------------------------------------------------------------- chunks

  function GroupRules(group: Group, g: nat, n: nat): seq<AclRule>
    requires n <= |group.filters|
  {
    if n == 0 then [] else GroupRules(group, g,
                                      n - 1) + [BuildAclRule(group.filters[n - 1], g, n - 1, group.precedence)]
  }

  /** The rule buffer of the chunk of `n` groups beginning at `start`. */
  function ChunkRules(groups: seq<Group>, start: nat, n: nat): seq<AclRule>
    requires start + n <= |groups|
  {
    if n == 0 then []
    else
      var g := start + n - 1;
      ChunkRules(groups, start, n - 1) + GroupRules(groups[g], g, |groups[g].filters|)
  }

  predicate IsFilter(groups: seq<Group>, g: nat, f: nat) {
    g < |groups| && f < |groups[g].filters|
  }

  function RuleAt(groups: seq<Group>, g: nat, f: nat): AclRule
    requires IsFilter(groups, g, f)
  {
    BuildAclRule(groups[g].filters[f], g, f, groups[g].precedence)
  }

  lemma {:induction false} GroupRulesMember(group: Group, g: nat, n: nat, r: AclRule)
    requires n <= |group.filters|
    ensures r in GroupRules(group, g, n) <==>
            exists f: nat :: f < n && r == BuildAclRule(group.filters[f], g, f, group.precedence)
  {
    hide BuildAclRule;
    if n > 0 {
      GroupRulesMember(group, g, n - 1, r);
    }
  }

  /** The buffer holds one rule for every filter of the chunk and nothing else. */
  lemma {:induction false} ChunkRulesMember(groups: seq<Group>, start: nat, n: nat, r: AclRule)
    requires start + n <= |groups|
    ensures r in ChunkRules(groups, start, n) <==>
            exists g: nat, f: nat :: start <= g < start + n && IsFilter(groups, g, f) && r == RuleAt(groups, g, f)
  {
    hide BuildAclRule;
    if n > 0 {
      var last := start + n - 1;
      ChunkRulesMember(groups, start, n - 1, r);
      GroupRulesMember(groups[last], last, |groups[last].filters|, r);
      if f: nat :|
        f < |groups[last].filters| && r == BuildAclRule(groups[last].filters[f], last, f, groups[last].precedence)
      {
        assert IsFilter(groups, last, f) && r == RuleAt(groups, last, f);
      }
      forall g: nat, f: nat | start <= g < start + n && IsFilter(groups, g, f) && r == RuleAt(groups, g, f)
        ensures r in ChunkRules(groups, start, n)
      {
        if g < last {
          assert start <= g < start + (n - 1);
        }
      }
    }
  }

  /** The library's promise: zero when no rule accepts the input, otherwise the word of an accepting rule
      of highest priority. */
  ghost predicate Answers(rules: seq<AclRule>, x: AclInput, u: U32) {
    || (u == 0 && forall r | r in rules :: !RuleAccepts(r, x))
    || (exists r :: && r in rules && RuleAccepts(r, x) && r.userdata == u
                    && forall r' | r' in rules && RuleAccepts(r', x) :: r'.priority <= r.priority)
  }

  datatype Chunk = Chunk(start: nat, count: nat, classify: AclInput -> U32)

  ghost predicate ChunkOk(groups: seq<Group>, c: Chunk) {
    && c.start + c.count <= |groups|
    && forall x: AclInput :: Answers(ChunkRules(groups, c.start, c.count), x, c.classify(x))
  }

  predicate InChunk(c: Chunk, g: nat) {
    c.start <= g < c.start + c.count
  }

  predicate SortedByPrecedence(groups: seq<Group>) {
    forall g, h :: 0 <= g < h < |groups| ==> groups[g].precedence <= groups[h].precedence
  }

  ghost predicate Encodable(groups: seq<Group>) {
    && |groups| <= 65535
    && (forall g :: 0 <= g < |groups| ==> |groups[g].filters| <= 65535)
    && (forall g: nat, f: nat | IsFilter(groups, g, f) :: WellFormed(groups[g].filters[f]))
  }

  ghost predicate Covered(groups: seq<Group>, chunks: seq<Chunk>, g: nat) {
    exists c :: 0 <= c < |chunks| && InChunk(chunks[c], g)
  }

  /** Chunks are ascending and disjoint, their contexts answer for their groups, and every group that has a
      filter is in one. */
  ghost predicate ChunksOk(groups: seq<Group>, chunks: seq<Chunk>) {
    && (forall c :: 0 <= c < |chunks| ==> ChunkOk(groups, chunks[c]))
    && (forall c, d :: 0 <= c < d < |chunks| ==> chunks[c].start + chunks[c].count <= chunks[d].start)
    && (forall g: nat, f: nat | IsFilter(groups, g, f) :: Covered(groups, chunks, g))
  }

  // ---------------------------------------------------------------- matching

  /** What one result word means for a packet. */
  function Decoded(groups: seq<Group>, u: U32, m: Metadata): Option<Classification> {
    var g, f := GroupOf(u), FilterOf(u);
    if g < |groups| && f < |groups[g].filters| && PortProtocolMatches(groups[g].filters[f], m)
    then Some(Hit(groups[g], groups[g].filters[f].name)) else None
  }

  /** The walk over the chunks from `i` on: the first decodable answer wins. */
  function FirstHit(groups: seq<Group>, chunks: seq<Chunk>, m: Metadata, i: nat): Classification
    requires i <= |chunks|
    decreases |chunks| - i
  {
    if i == |chunks| then MISS
    else
      var u := chunks[i].classify(InputOf(m));
      if u != 0 && Decoded(groups, u, m).Some? then Decoded(groups, u, m).value
      else FirstHit(groups, chunks, m, i + 1)
  }

  predicate Matching(groups: seq<Group>, m: Metadata, g: nat, f: nat) {
    IsFilter(groups, g, f) && FilterMatches(groups[g].filters[f], m)
  }

  /** Group `g`, through its filter `f`, is a best answer among the groups of chunk `c`. */
  ghost predicate BestInChunk(groups: seq<Group>, c: Chunk, m: Metadata, g: nat, f: nat) {
    && InChunk(c, g) && Matching(groups, m, g, f)
    && forall h: nat, e: nat | InChunk(c, h) &&
       Matching(groups, m, h, e) :: groups[g].precedence <= groups[h].precedence
  }

  /** A rule of the chunk's buffer accepts the packet exactly when it stems from a matching filter. */
  lemma BufferMatches(groups: seq<Group>, c: Chunk, m: Metadata, g: nat, f: nat)
    requires ChunkOk(groups, c) && Encodable(groups) && InChunk(c, g) && IsFilter(groups, g, f)
    ensures RuleAt(groups, g, f) in ChunkRules(groups, c.start, c.count)
    ensures RuleAccepts(RuleAt(groups, g, f), InputOf(m)) <==> Matching(groups, m, g, f)
  {
    hide ChunkRules, RuleAccepts, FilterMatches;
    ChunkRulesMember(groups, c.start, c.count, RuleAt(groups, g, f));
    RuleMeansFilter(groups[g].filters[f], m, g, f, groups[g].precedence);
  }

  /** One chunk either answers zero and holds no match, or answers with a decodable best match. */
  lemma ChunkAnswer(groups: seq<Group>, c: Chunk, m: Metadata)
    requires ChunkOk(groups, c) && Encodable(groups)
    ensures var u := c.classify(InputOf(m));
            || (u == 0 && forall g: nat, f: nat | InChunk(c, g) :: !Matching(groups, m, g, f))
            || (u != 0 && exists g: nat, f: nat :: BestInChunk(groups, c, m, g, f)
                                                   && Decoded(groups, u, m) == Some(Hit(groups[g],
                                                         groups[g].filters[f].name)))
  {
    hide ChunkRules, RuleAccepts, FilterMatches, Userdata, InputOf, WellFormed;
    var u, x, rules := c.classify(InputOf(m)), InputOf(m), ChunkRules(groups, c.start, c.count);
    assert Answers(rules, x, u);
    forall g: nat, f: nat | InChunk(c, g) && IsFilter(groups, g, f)
      ensures RuleAt(groups, g, f) in rules && (RuleAccepts(RuleAt(groups, g, f), x) <==> Matching(groups, m, g, f))
    {
      BufferMatches(groups, c, m, g, f);
    }
    if r :| && r in rules && RuleAccepts(r, x) && r.userdata == u
            && forall r' | r' in rules && RuleAccepts(r', x) :: r'.priority <= r.priority
    {
      ChunkRulesMember(groups, c.start, c.count, r);
      var g: nat, f: nat :| c.start <= g < c.start + c.count && IsFilter(groups, g, f) && r == RuleAt(groups, g, f);
      DecodesTo(groups, m, g, f);
      forall h: nat, e: nat | InChunk(c, h) &&
             Matching(groups, m, h, e) ensures groups[g].precedence <= groups[h].precedence {
        assert RuleAt(groups, h, e).priority <= r.priority;
      }
      assert BestInChunk(groups, c, m, g, f);
    }
  }

  lemma DecodesTo(groups: seq<Group>, m: Metadata, g: nat, f: nat)
    requires Encodable(groups) && Matching(groups, m, g, f)
    ensures Userdata(g, f) != 0
    ensures Decoded(groups, Userdata(g, f), m) == Some(Hit(groups[g], groups[g].filters[f].name))
  {
    hide Userdata, GroupOf, FilterOf, DestinationMatches, PortProtocolMatches, WellFormed;
    UserdataReadsBack(g, f);
  }

  /** `r` is the answer of precedence matching over the groups in chunks from `i` on. */
  ghost predicate Best(groups: seq<Group>, chunks: seq<Chunk>, m: Metadata, i: nat, r: Classification)
    requires i <= |chunks|
  {
    if r.matched then exists g: nat, f: nat :: BestFrom(groups, chunks, m, i, g, f, r)
    else r == MISS && forall g: nat, f: nat | CoveredFrom(chunks, i, g) :: !Matching(groups, m, g, f)
  }

  ghost predicate BestFrom(groups: seq<Group>, chunks: seq<Chunk>, m: Metadata, i: nat, g: nat, f: nat,
                           r: Classification) {
    && Matching(groups, m, g, f) && Reports(r, groups[g], groups[g].filters[f].name)
    && forall h: nat, e: nat | CoveredFrom(chunks, i, h) &&
       Matching(groups, m, h, e) :: groups[g].precedence <= groups[h].precedence
  }

  ghost predicate CoveredFrom(chunks: seq<Chunk>, i: nat, g: nat) {
    exists c :: i <= c < |chunks| && InChunk(chunks[c], g)
  }

  lemma {:induction false} FirstHitIsBest(groups: seq<Group>, chunks: seq<Chunk>, m: Metadata, i: nat)
    requires i <= |chunks| && ChunksOk(groups, chunks) && SortedByPrecedence(groups) && Encodable(groups)
    ensures Best(groups, chunks, m, i, FirstHit(groups, chunks, m, i))
    decreases |chunks| - i
  {
    hide FilterMatches, Encodable, ChunkOk, InputOf, Decoded;
    if i < |chunks| {
      ChunkAnswer(groups, chunks[i], m);
      var u := chunks[i].classify(InputOf(m));
      if u == 0 {
        FirstHitIsBest(groups, chunks, m, i + 1);
        NothingInChunk(groups, chunks, m, i, FirstHit(groups, chunks, m, i + 1));
      } else {
        var g: nat, f: nat :| BestInChunk(groups, chunks[i], m, g, f)
                               && Decoded(groups, u, m) == Some(Hit(groups[g], groups[g].filters[f].name));
        SomethingInChunk(groups, chunks, m, i, g, f);
      }
    }
  }

  lemma NothingInChunk(groups: seq<Group>, chunks: seq<Chunk>, m: Metadata, i: nat, r: Classification)
    requires i < |chunks| && Best(groups, chunks, m, i + 1, r)
    requires forall g: nat, f: nat | InChunk(chunks[i], g) :: !Matching(groups, m, g, f)
    ensures Best(groups, chunks, m, i, r)
  {
    hide FilterMatches, InChunk;
    assert forall h: nat :: CoveredFrom(chunks, i, h) ==> InChunk(chunks[i], h) || CoveredFrom(chunks, i + 1, h);
    if r.matched {
      var g: nat, f: nat :| BestFrom(groups, chunks, m, i + 1, g, f, r);
      assert BestFrom(groups, chunks, m, i, g, f, r);
    }
  }

  /** Later chunks hold groups of no smaller precedence. */
  lemma SomethingInChunk(groups: seq<Group>, chunks: seq<Chunk>, m: Metadata, i: nat, g: nat, f: nat)
    requires i < |chunks| && ChunksOk(groups, chunks) && SortedByPrecedence(groups)
    requires BestInChunk(groups, chunks[i], m, g, f)
    ensures Best(groups, chunks, m, i, Hit(groups[g], groups[g].filters[f].name))
  {
    hide FilterMatches, ChunkOk, Covered;
    forall h: nat, e: nat | CoveredFrom(chunks, i, h) &&
           Matching(groups, m, h, e) ensures groups[g].precedence <= groups[h].precedence {
      var c :| i <= c < |chunks| && InChunk(chunks[c], h);
      if c > i {
        assert g < h;
      }
    }
    assert BestFrom(groups, chunks, m, i, g, f, Hit(groups[g], groups[g].filters[f].name));
  }

  /** Chunked ACL matching is precedence matching: for every packet, the walk reports a match exactly when
      some filter of the configuration matches, and then it reports name, action, inspection flag, link and
      precedence of a configured group with a matching filter, whose precedence is minimal among all
      configured groups with a matching filter. `groups` is any sorted arrangement of `config`. */
  lemma MatchIsPrecedenceMatching(config: seq<Group>, groups: seq<Group>, chunks: seq<Chunk>, m: Metadata)
    requires multiset(groups) == multiset(config) && SortedByPrecedence(groups) && Encodable(groups)
    requires ChunksOk(groups, chunks)
    ensures var r := FirstHit(groups, chunks, m, 0);
            && (r.matched <==> exists g: nat, f: nat :: Matching(config, m, g, f))
            && (!r.matched ==> r == MISS)
            && (r.matched ==> exists g: nat, f: nat ::
                    && Matching(config, m, g, f) && Reports(r, config[g], config[g].filters[f].name)
                    && forall h: nat, e: nat | Matching(config, m, h, e) ::
                       config[g].precedence <= config[h].precedence)
  {
    hide FilterMatches, ChunkOk, Encodable;
    FirstHitIsBest(groups, chunks, m, 0);
    var r := FirstHit(groups, chunks, m, 0);
    hide FirstHit;
    forall g: nat, f: nat | Matching(config, m, g, f)
      ensures exists g': nat ::
                Matching(groups, m, g', f) && groups[g'] == config[g] && CoveredFrom(chunks, 0, g')
    {
      SomewhereIn(config, groups, g);
      var g': nat :| g' < |groups| && groups[g'] == config[g];
      assert IsFilter(groups, g', f) && Covered(groups, chunks, g');
      assert Matching(groups, m, g', f);
    }
    if r.matched {
      var g: nat, f: nat :| BestFrom(groups, chunks, m, 0, g, f, r);
      SomewhereIn(groups, config, g);
      var g': nat :| g' < |config| && config[g'] == groups[g];
      assert Matching(config, m, g', f);
    }
  }

  lemma SomewhereIn(a: seq<Group>, b: seq<Group>, g: nat)
    requires multiset(a) == multiset(b) && g < |a|
    ensures exists h: nat :: h < |b| && b[h] == a[g]
  {
    assert a[g] in multiset(b);
  }
}
