/** The membership prefilter: which keys are registered, what the two-pass bulk test decides, and when
    skipping the ACL is sound. */
module MemberFilter {
  import opened Machine
  import opened Packet
  import opened Prefix
  import opened RuleMatching

  const MIN_EXPANDED_PREFIX: nat := 20

  /** Address and port as the packet carries them, in network byte order; port 0 stands for any port. */
  datatype MemberKey = MemberKey(destination: U32, port: U16, protocol: Byte)

  function PortWord(f: Filter): U16 {
    if f.destinationPort.Some? then Swap16(f.destinationPort.value) else 0
  }

  /** A destination the prefilter cannot enumerate. */
  predicate Unbounded(f: Filter) {
    f.destination.Anywhere? || (f.destination.Network? && f.destination.length < MIN_EXPANDED_PREFIX)
  }

  function KeyFor(f: Filter, address: U32): MemberKey {
    MemberKey(Swap32(address), PortWord(f), IpProtocol(f.protocol))
  }

  /** The keys one filter contributes. */
  ghost predicate Contributes(f: Filter, k: MemberKey) {
    match f.destination
    case Anywhere => false
    case Host(address) => k == KeyFor(f, address)
    case Network(network, length) =>
      && MIN_EXPANDED_PREFIX <= length <= 32
      && exists host: nat :: host < Pow2(32 - length) && k == KeyFor(f, Add32(network, host))
  }

  /** Contributed by a filter before position (g, f) in the scan. */
  ghost predicate ContributedBefore(groups: seq<Group>, g: nat, f: nat, k: MemberKey) {
    exists h: nat, e: nat :: IsFilter(groups, h, e) && (h < g || (h == g && e < f)) &&
           Contributes(groups[h].filters[e], k)
  }

  ghost predicate Registered(groups: seq<Group>, k: MemberKey) {
    exists g: nat, f: nat :: IsFilter(groups, g, f) && Contributes(groups[g].filters[f], k)
  }

  // ---------------------------------------------------------------- building the set

  /** Register every filter that names an address or a network of at most 4096 hosts. */
  method BuildMemberKeys(groups: seq<Group>) returns (keys: set<MemberKey>)
    requires forall g: nat, f: nat | IsFilter(groups, g, f) :: WellFormed(groups[g].filters[f])
    ensures forall k :: k in keys <==> Registered(groups, k)
  {
    hide Contributes, WellFormed;
    keys := {};
    var g := 0;
    while g < |groups|
      invariant 0 <= g <= |groups|
      invariant forall k :: k in keys <==> ContributedBefore(groups, g, 0, k)
    {
      var f := 0;
      while f < |groups[g].filters|
        invariant 0 <= f <= |groups[g].filters|
        invariant forall k :: k in keys <==> ContributedBefore(groups, g, f, k)
      {
        assert IsFilter(groups, g, f);
        var added := KeysOf(groups[g].filters[f]);
        forall k ensures ContributedBefore(groups, g, f + 1, k) <==>
               ContributedBefore(groups, g, f, k) || Contributes(groups[g].filters[f], k) {
          ScanOne(groups, g, f, k);
        }
        keys := keys + added;
        f := f + 1;
      }
      forall k ensures ContributedBefore(groups, g + 1, 0, k) <==> ContributedBefore(groups, g, f, k) {
        ScanGroup(groups, g, k);
      }
      g := g + 1;
    }
    forall k ensures ContributedBefore(groups, g, 0, k) <==> Registered(groups, k) {}
  }

  lemma ScanOne(groups: seq<Group>, g: nat, f: nat, k: MemberKey)
    requires IsFilter(groups, g, f)
    ensures ContributedBefore(groups, g, f + 1, k) <==>
            ContributedBefore(groups, g, f, k) || Contributes(groups[g].filters[f], k)
  {
    hide Contributes;
  }

  lemma ScanGroup(groups: seq<Group>, g: nat, k: MemberKey)
    requires g < |groups|
    ensures ContributedBefore(groups, g + 1, 0, k) <==> ContributedBefore(groups, g, |groups[g].filters|, k)
  {
    hide Contributes;
  }

  method KeysOf(f: Filter) returns (keys: set<MemberKey>)
    requires WellFormed(f)
    ensures forall k :: k in keys <==> Contributes(f, k)
  {
    hide KeyFor, PrefixMask, And;
    keys := {};
    if f.destination.Host? {
      keys := {KeyFor(f, f.destination.address)};
    } else if f.destination.Network? && f.destination.length >= MIN_EXPANDED_PREFIX {
      var count := Pow2(32 - f.destination.length);
      var host := 0;
      while host < count
        invariant 0 <= host <= count
        invariant forall k :: k in keys <==>
                  exists h: nat :: h < host && k == KeyFor(f, Add32(f.destination.network, h))
      {
        keys := keys + {KeyFor(f, Add32(f.destination.network, host))};
        host := host + 1;
      }
    }
  }

  // ---------------------------------------------------------------- the test

  function ExactKey(m: Metadata): MemberKey {
    MemberKey(m.destinationIp, m.destinationPort, IpProtocol(m.protocol))
  }

  function AnyPortKey(m: Metadata): MemberKey {
    MemberKey(m.destinationIp, 0, IpProtocol(m.protocol))
  }

  /** Neither the packet's own key nor its any-port key is found. */
  predicate Absent(lookup: MemberKey -> bool, m: Metadata) {
    !lookup(ExactKey(m)) && !lookup(AnyPortKey(m))
  }

  /** `member` is the lookup of the set, if one was created; `unbounded` is the flag for filters the set
      cannot enumerate. */
  datatype Prefilter = Prefilter(member: Option<MemberKey -> bool>, unbounded: bool)

  predicate Skips(p: Prefilter, m: Metadata) {
    p.member.Some? && !p.unbounded && Absent(p.member.value, m)
  }

  /** The bulk test: one pass with the exact keys, a second with the any-port keys of those that missed. */
  method MemberFilterBulk(p: Prefilter, packets: seq<Metadata>, skip: array<bool>)
    requires skip.Length >= |packets|
    modifies skip
    ensures forall i :: 0 <= i < skip.Length ==>
              skip[i] == (old(skip[i]) || (i < Min(|packets|, BULK_MAX) && Skips(p, packets[i])))
  {
    if p.member.None? || p.unbounded {
      return;
    }
    var lookup := p.member.value;
    var n := Min(|packets|, BULK_MAX);
    var found := seq(n, i requires 0 <= i < n => lookup(ExactKey(packets[i])));
    var missed: seq<nat> := [];
    var i := 0;
    while i < n
      invariant 0 <= i <= n
      invariant forall w :: 0 <= w < |missed| ==> missed[w] < i
      invariant forall v, w :: 0 <= v < w < |missed| ==> missed[v] < missed[w]
      invariant forall j :: 0 <= j < i ==> (j in missed <==> !found[j])
    {
      if !found[i] {
        missed := missed + [i];
      }
      i := i + 1;
    }
    var wild := seq(|missed|, w requires 0 <= w < |missed| => lookup(AnyPortKey(packets[missed[w]])));
    var w := 0;
    while w < |missed|
      invariant 0 <= w <= |missed| && |found| == n
      invariant forall j :: 0 <= j < n ==>
                  found[j] == (lookup(ExactKey(packets[j])) || (j in missed[..w] && lookup(AnyPortKey(packets[j]))))
    {
      if wild[w] {
        found := found[missed[w] := true];
      }
      assert missed[..w + 1] == missed[..w] + [missed[w]];
      w := w + 1;
    }
    assert missed[..w] == missed;
    i := 0;
    while i < n
      invariant 0 <= i <= n
      invariant forall j :: 0 <= j < skip.Length ==> skip[j] == (old(skip[j]) || (j < i && Absent(lookup, packets[j])))
    {
      if !found[i] {
        skip[i] := true;
      }
      i := i + 1;
    }
  }

  // ---------------------------------------------------------------- soundness

  /** What is assumed of the membership structure: no false negatives. */
  ghost predicate Remembers(groups: seq<Group>, lookup: MemberKey -> bool) {
    forall k | Registered(groups, k) :: lookup(k)
  }

  /** A filter with an enumerable destination contributes a key that every IPv4 packet it matches looks up. */
  lemma MatchedPacketIsPresent(f: Filter, m: Metadata)
    requires WellFormed(f) && !Unbounded(f) && m.version.Ipv4? && FilterMatches(f, m)
    ensures Contributes(f, ExactKey(m)) || Contributes(f, AnyPortKey(m))
  {
    var w := DestinationWord(m);
    SwapTwice(m.destinationIp);
    SwapTwice16(m.destinationPort);
    hide Swap32, Swap16, And, PrefixMask, Pow2;
    var k := if f.destinationPort.Some? then ExactKey(m) else AnyPortKey(m);
    assert k == KeyFor(f, w);
    if f.destination.Network? {
      HostExpansionCoversPrefix(f.destination.network, f.destination.length, w);
    }
    assert Contributes(f, k);
  }

  /** No false negatives: when every destination can be enumerated, an IPv4 packet is skipped only if no filter
      matches it. */
  lemma SkippedPacketsMatchNothing(groups: seq<Group>, lookup: MemberKey -> bool, m: Metadata, g: nat, f: nat)
    requires Remembers(groups, lookup) && m.version.Ipv4? && Absent(lookup, m)
    requires IsFilter(groups, g, f) && WellFormed(groups[g].filters[f]) && !Unbounded(groups[g].filters[f])
    ensures !Matching(groups, m, g, f)
  {
    hide WellFormed, Unbounded, Contributes, FilterMatches;
    assert forall k | Contributes(groups[g].filters[f], k) :: Registered(groups, k);
    if Matching(groups, m, g, f) {
      MatchedPacketIsPresent(groups[g].filters[f], m);
    }
  }

  ghost predicate SomeUnbounded(groups: seq<Group>) {
    exists g: nat, f: nat :: IsFilter(groups, g, f) && Unbounded(groups[g].filters[f])
  }

  /** Skipping does not change the outcome: with the flag set as the constructor computes it, a skipped IPv4 packet
      is one for which the ACL walk finds nothing. */
  lemma SkippingIsTransparent(groups: seq<Group>, chunks: seq<Chunk>, p: Prefilter, m: Metadata)
    requires SortedByPrecedence(groups) && Encodable(groups) && ChunksOk(groups, chunks)
    requires p.unbounded == SomeUnbounded(groups) && (p.member.Some? ==> Remembers(groups, p.member.value))
    requires m.version.Ipv4? && Skips(p, m)
    ensures FirstHit(groups, chunks, m, 0) == MISS
  {
    hide WellFormed, Unbounded, FilterMatches, Remembers, Absent, FirstHit, ChunksOk;
    forall g: nat, f: nat | IsFilter(groups, g, f) ensures !Matching(groups, m, g, f) {
      SkippedPacketsMatchNothing(groups, p.member.value, m, g, f);
    }
    FirstHitIsBest(groups, chunks, m, 0);
  }

  /** The move constructor copies the set but leaves the flag at its default. */
  function Moved(p: Prefilter): Prefilter {
    p.(unbounded := false)
  }

  /** Every compiled table is moved on its way out of the compiler, so its flag is lost. What that costs, exactly:
      an IPv4 packet that some filter matches is skipped if and only if its keys are absent and a filter
      with an unbounded destination matches it. */
  lemma MovedTableLosesExactly(groups: seq<Group>, p: Prefilter, m: Metadata)
    requires Encodable(groups) && p.member.Some? && Remembers(groups, p.member.value) && m.version.Ipv4?
    ensures Skips(Moved(p), m) && (exists g: nat, f: nat :: Matching(groups, m, g, f))
            <==> Absent(p.member.value, m)
                 && exists g: nat, f: nat :: Matching(groups, m, g, f) && Unbounded(groups[g].filters[f])
  {
    hide WellFormed, Unbounded, FilterMatches, Remembers, Absent;
    if Skips(Moved(p), m) {
      forall g: nat, f: nat | Matching(groups, m, g, f) ensures Unbounded(groups[g].filters[f]) {
        if !Unbounded(groups[g].filters[f]) {
          SkippedPacketsMatchNothing(groups, p.member.value, m, g, f);
        }
      }
    }
  }

  /** So a table without unbounded destinations is not harmed by the move. */
  lemma MoveIsHarmlessWithoutUnbounded(groups: seq<Group>, p: Prefilter, m: Metadata)
    requires p.unbounded == SomeUnbounded(groups)
    ensures !SomeUnbounded(groups) ==> Skips(Moved(p), m) == Skips(p, m)
    ensures SomeUnbounded(groups) ==> !Skips(p, m)
  {}

  function Only(f: Filter, action: Action): Group {
    Group("", 1, action, [f], false, NO_LINK, "")
  }

  /** One rule for a host and one port-only rule suffice: the packets of the second rule to any other host are
      skipped by the moved table although the rule matches them. */
  lemma PortOnlyRuleIsLost(host: U32, port: U16, m: Metadata)
    requires m.version.Ipv4? && m.protocol.Tcp? && Swap16(m.destinationPort) == port && Swap32(m.destinationIp) != host
    ensures var groups := [Only(Filter(Tcp, None, Host(host), None, None, ""), Forward),
                           Only(Filter(Tcp, None, Anywhere, None, Some(port), ""), Drop)];
            && Matching(groups, m, 1, 0)
            && forall p: Prefilter | p.member.Some? &&
               (forall k :: p.member.value(k) <==> Registered(groups, k)) :: Skips(Moved(p), m)
  {
    var groups := [Only(Filter(Tcp, None, Host(host), None, None, ""), Forward),
                   Only(Filter(Tcp, None, Anywhere, None, Some(port), ""), Drop)];
    SwapTwice(host);
    hide Swap32, Swap16;
    forall k | Registered(groups, k) ensures k.destination == Swap32(host) {
      var g: nat, f: nat :| IsFilter(groups, g, f) && Contributes(groups[g].filters[f], k);
      assert f == 0 && g <= 1;
    }
    assert IsFilter(groups, 1, 0);
    assert Swap32(Swap32(host)) == host;
  }

  lemma SwapOfZero()
    ensures Swap32(0) == 0
  {}

  lemma SwapZero(x: U32)
    ensures Swap32(x) == 0 <==> x == 0
  {
    hide Swap32;
    SwapTwice(x);
    SwapOfZero();
  }

  /** The lookup answers exactly for the registered keys. */
  ghost predicate Exact(groups: seq<Group>, lookup: MemberKey -> bool) {
    forall k :: lookup(k) <==> Registered(groups, k)
  }

  /** The filter has an enumerable destination that covers 0.0.0.0, and the packet's protocol and port or no port. */
  predicate CoversZero(f: Filter, m: Metadata) {
    && f.protocol == m.protocol && !Unbounded(f) && DestinationMatches(f.destination, 0)
    && (PortWord(f) == m.destinationPort || PortWord(f) == 0)
  }

  lemma ContributesZero(f: Filter, port: U16, protocol: Protocol)
    requires WellFormed(f)
    ensures Contributes(f, MemberKey(0, port, IpProtocol(protocol))) <==>
            f.protocol == protocol && !Unbounded(f) && DestinationMatches(f.destination, 0) && PortWord(f) == port
  {
    hide Swap32, Swap16, And, PrefixMask, Pow2;
    forall x: U32 ensures Swap32(x) == 0 <==> x == 0 {
      SwapZero(x);
    }
    if f.destination.Network? {
      HostExpansionCoversPrefix(f.destination.network, f.destination.length, 0);
    }
  }

  /** The prefilter reads the IPv4 address field, which an IPv6 packet leaves at zero, while the ACL reads the
      head of the IPv6 address. With an exact set, an IPv6 packet is kept if and only if some filter of its
      protocol, with its port or any port, covers address 0.0.0.0; what the packet itself matches plays no
      part. */
  lemma Ipv6KeptIff(groups: seq<Group>, p: Prefilter, m: Metadata)
    requires Encodable(groups) && p.member.Some? && !p.unbounded && Exact(groups, p.member.value)
    requires m.version.Ipv6? && m.destinationIp == 0
    ensures !Skips(p, m) <==> exists g: nat, f: nat :: IsFilter(groups, g, f) && CoversZero(groups[g].filters[f], m)
  {
    hide WellFormed, Contributes, Unbounded, DestinationMatches, PortWord;
    forall g: nat, f: nat | IsFilter(groups, g, f)
      ensures CoversZero(groups[g].filters[f], m) <==>
              Contributes(groups[g].filters[f], ExactKey(m)) || Contributes(groups[g].filters[f], AnyPortKey(m))
    {
      ContributesZero(groups[g].filters[f], m.destinationPort, m.protocol);
      ContributesZero(groups[g].filters[f], 0, m.protocol);
    }
    hide CoversZero;
    assert !Skips(p, m) <==> Registered(groups, ExactKey(m)) || Registered(groups, AnyPortKey(m));
  }

  /** So one rule for a host is enough to lose every IPv6 packet that the rule matches. */
  lemma Ipv6PacketIsLost(host: U32, m: Metadata, p: Prefilter)
    requires m.version.Ipv6? && m.protocol.Tcp? && m.destinationIp == 0 && DestinationWord(m) == host && host != 0
    requires var groups := [Only(Filter(Tcp, None, Host(host), None, None, ""), Drop)];
             p.member.Some? && !p.unbounded && Exact(groups, p.member.value)
    ensures Matching([Only(Filter(Tcp, None, Host(host), None, None, ""), Drop)], m, 0, 0) && Skips(p, m)
  {
    hide Swap32, Swap16, DestinationWord, Exact;
    Ipv6KeptIff([Only(Filter(Tcp, None, Host(host), None, None, ""), Drop)], p, m);
  }
}
