/** One worker iteration in queue mode with L2 forwarding: where every received packet ends up and how it is
    counted. Packets are tokens; what foreign code decides about a packet is given by `Facts`. */
module BurstConservation {
  import opened Machine
  import opened Packet
  import opened BurstResolution
  import opened PacketDecision

  // ---------------------------------------------------------------- port pairing

  predicate DistinctPorts(ports: seq<nat>) {
    forall i, j :: 0 <= i < j < |ports| ==> ports[i] != ports[j]
  }

  function IndexOf(ports: seq<nat>, port: nat): (i: nat)
    ensures i <= |ports| && (i < |ports| <==> port in ports) && (i < |ports| ==> ports[i] == port)
  {
    if ports == [] then 0 else if ports[0] == port then 0 else 1 + IndexOf(ports[1..], port)
  }

  /** Neighbours in the port list are paired; a port without a neighbour transmits to itself. */
  function TransmitPort(ports: seq<nat>, port: nat): nat {
    var i := IndexOf(ports, port);
    if |ports| <= 1 || i == |ports| then port
    else if i % 2 == 0 && i + 1 < |ports| then ports[i + 1]
    else if i % 2 == 1 then ports[i - 1]
    else port
  }

  lemma {:induction false} IndexUnique(ports: seq<nat>, i: nat)
    requires DistinctPorts(ports) && i < |ports|
    ensures IndexOf(ports, ports[i]) == i
  {
    if i > 0 {
      assert ports[0] != ports[i] && ports[1..][i - 1] == ports[i];
      IndexUnique(ports[1..], i - 1);
    }
  }

  /** Where the neighbour of position `i` in a list of `n` stands: 0 and 1, 2 and 3, and so on. */
  function Partner(n: nat, i: nat): (j: nat)
    requires i < n
    ensures j < n && j / 2 == i / 2 && (j == i <==> i == n - 1 && n % 2 == 1)
  {
    if i % 2 == 1 then i - 1 else if i + 1 < n then i + 1 else i
  }

  /** Over distinct ports, each port transmits on its neighbour: the next one for an even position that has one, the
      previous one for an odd position, itself for a last one without neighbour. A port that is not listed transmits
      on itself. */
  lemma PairsNeighbours(ports: seq<nat>, i: nat, port: nat)
    requires DistinctPorts(ports)
    ensures i < |ports| ==>
              TransmitPort(ports, ports[i]) ==
              if i % 2 == 0 && i + 1 < |ports| then ports[i + 1] else if i % 2 == 1 then ports[i - 1] else ports[i]
    ensures port !in ports ==> TransmitPort(ports, port) == port
  {
    if i < |ports| {
      IndexUnique(ports, i);
    }
  }

  /** Over distinct ports the pairing stays among them and undoes itself, so no two ports share a transmit port. */
  lemma PairingIsInvolution(ports: seq<nat>, port: nat)
    requires DistinctPorts(ports) && port in ports
    ensures TransmitPort(ports, port) in ports
    ensures TransmitPort(ports, TransmitPort(ports, port)) == port
  {
    hide TransmitPort;
    var i := IndexOf(ports, port);
    PairsNeighbours(ports, i, port);
    PairsNeighbours(ports, Partner(|ports|, i), port);
  }

  /** Two receive ports, or one listed twice, feed the same buffer. */
  ghost predicate FedTwice(ports: seq<nat>, i: nat, j: nat) {
    i < j < |ports| && TransmitPort(ports, ports[i]) == TransmitPort(ports, ports[j])
  }

  /** No buffer is fed twice in an iteration exactly when no port is listed twice. */
  lemma FedOnceIff(ports: seq<nat>)
    ensures (forall i: nat, j: nat :: !FedTwice(ports, i, j)) <==> DistinctPorts(ports)
  {
    hide TransmitPort;
    if DistinctPorts(ports) {
      forall i: nat, j: nat ensures !FedTwice(ports, i, j) {
        if i < j < |ports| {
          PairingIsInvolution(ports, ports[i]);
          PairingIsInvolution(ports, ports[j]);
        }
      }
    } else {
      var i: nat, j: nat :| i < j < |ports| && ports[i] == ports[j];
      assert FedTwice(ports, i, j);
    }
  }

  // ---------------------------------------------------------------- ledger

  datatype Counters = Counters(
    received: nat, parsed: nat, malformed: nat, cacheHits: nat, matched: nat, unknown: nat,
    droppedByRule: nat, dropped: nat, transmitted: nat)

  const ZERO: Counters := Counters(0, 0, 0, 0, 0, 0, 0, 0, 0)

  /** The tokens themselves: everything received, and what became of it. */
  datatype Ledger = Ledger(arrived: multiset<nat>, sent: multiset<nat>, freed: multiset<nat>, parked: multiset<nat>)

  const EMPTY: Ledger := Ledger(multiset{}, multiset{}, multiset{}, multiset{})

  function Staged(buffers: seq<seq<nat>>): multiset<nat> {
    if buffers == [] then multiset{} else Staged(buffers[..|buffers| - 1]) + multiset(buffers[|buffers| - 1])
  }

  lemma {:induction false} StagedUpdate(buffers: seq<seq<nat>>, q: nat, buffer: seq<nat>)
    requires q < |buffers|
    ensures Staged(buffers[q := buffer]) + multiset(buffers[q]) == Staged(buffers) + multiset(buffer)
  {
    var n := |buffers| - 1;
    var head, last := buffers[..n], multiset(buffers[n]);
    if q < n {
      StagedUpdate(head, q, buffer);
      assert buffers[q := buffer][..n] == head[q := buffer];
      Shuffle(Staged(head[q := buffer]), last, multiset(buffers[q]));
      Shuffle(Staged(head), last, multiset(buffer));
    } else {
      assert buffers[q := buffer][..n] == head;
      Shuffle(Staged(head), last, multiset(buffer));
    }
  }

  lemma Shuffle(a: multiset<nat>, b: multiset<nat>, c: multiset<nat>)
    ensures a + b + c == a + c + b
  {}

  lemma {:induction false} StagedEmpty(buffers: seq<seq<nat>>)
    requires forall q :: 0 <= q < |buffers| ==> buffers[q] == []
    ensures Staged(buffers) == multiset{}
  {
    if buffers != [] {
      StagedEmpty(buffers[..|buffers| - 1]);
    }
  }

  /** Every token received is sent, freed, parked, staged or still in hand, exactly once, and the counters count
      tokens; `open` parsed packets have not been classified yet. */
  ghost predicate Balanced(c: Counters, l: Ledger, buffers: seq<seq<nat>>, hand: multiset<nat>, open: nat) {
    && l.arrived == l.sent + l.freed + l.parked + Staged(buffers) + hand
    && c.received == |l.arrived| && c.transmitted == |l.sent| && c.dropped == |l.freed|
    && c.parsed == c.cacheHits + c.matched + c.unknown + open
  }

  lemma FreeOne(c: Counters, l: Ledger, buffers: seq<seq<nat>>, hand: multiset<nat>, open: nat, packet: nat,
                byRule: nat)
    requires Balanced(c, l, buffers, hand, open) && packet in hand
    ensures Balanced(c.(dropped := c.dropped + 1, droppedByRule := byRule), l.(freed := l.freed + multiset{packet}),
                     buffers, hand - multiset{packet}, open)
  {
    assert hand == (hand - multiset{packet}) + multiset{packet};
  }

  lemma StageOne(c: Counters, l: Ledger, buffers: seq<seq<nat>>, hand: multiset<nat>, open: nat, packet: nat, q: nat)
    requires Balanced(c, l, buffers, hand, open) && packet in hand && q < |buffers|
    ensures Balanced(c, l, buffers[q := buffers[q] + [packet]], hand - multiset{packet}, open)
  {
    var after := buffers[q := buffers[q] + [packet]];
    StagedUpdate(buffers, q, buffers[q] + [packet]);
    hide Staged;
    Moves(Staged(buffers), Staged(after), multiset(buffers[q]), multiset{packet});
    Hands(l.sent + l.freed + l.parked, Staged(buffers), hand, packet);
  }

  lemma Moves(s: multiset<nat>, s': multiset<nat>, b: multiset<nat>, p: multiset<nat>)
    requires s' + b == s + (b + p)
    ensures s' == s + p
  {
    forall x ensures s'[x] == (s + p)[x] {
      assert (s' + b)[x] == s'[x] + b[x] && (s + (b + p))[x] == s[x] + (b[x] + p[x]);
    }
  }

  lemma Hands(gone: multiset<nat>, s: multiset<nat>, hand: multiset<nat>, packet: nat)
    requires packet in hand
    ensures gone + s + hand == gone + (s + multiset{packet}) + (hand - multiset{packet})
  {
    assert hand == multiset{packet} + (hand - multiset{packet});
  }

  /** Flushing one buffer of which the device takes the first `k`. */
  lemma FlushOne(c: Counters, l: Ledger, buffers: seq<seq<nat>>, q: nat, k: nat)
    requires Balanced(c, l, buffers, multiset{}, 0) && q < |buffers| && k <= |buffers[q]|
    ensures Balanced(c.(transmitted := c.transmitted + k, dropped := c.dropped + (|buffers[q]| - k)),
                     l.(sent := l.sent + multiset(buffers[q][..k]), freed := l.freed + multiset(buffers[q][k..])),
                     buffers[q := []], multiset{}, 0)
  {
    StagedUpdate(buffers, q, []);
    hide Staged;
    var took, rest := multiset(buffers[q][..k]), multiset(buffers[q][k..]);
    assert buffers[q] == buffers[q][..k] + buffers[q][k..];
    assert multiset(buffers[q]) == took + rest && |took| == k && |rest| == |buffers[q]| - k;
    Departs(l.sent, l.freed, l.parked, Staged(buffers[q := []]), took, rest);
  }

  lemma Departs(sent: multiset<nat>, freed: multiset<nat>, parked: multiset<nat>, s: multiset<nat>,
                took: multiset<nat>, rest: multiset<nat>)
    ensures sent + freed + parked + (s + (took + rest)) + multiset{} ==
            (sent + took) + (freed + rest) + parked + s + multiset{}
  {}

  // ---------------------------------------------------------------- a burst in hand

  /** Tokens from position `i` on that parsing leaves with the worker. */
  function InHand(packets: seq<nat>, facts: nat -> Facts, i: nat): multiset<nat>
    requires i <= |packets|
    decreases |packets| - i
  {
    if i == |packets| then multiset{}
    else (if facts(packets[i]).parse.AwaitsFragments?
          then multiset{} else multiset{packets[i]}) + InHand(packets, facts, i + 1)
  }

  /** Tokens from position `i` on that go to the fragment table. */
  function Parked(packets: seq<nat>, facts: nat -> Facts, i: nat): multiset<nat>
    requires i <= |packets|
    decreases |packets| - i
  {
    if i == |packets| then multiset{}
    else (if facts(packets[i]).parse.AwaitsFragments?
          then multiset{packets[i]} else multiset{}) + Parked(packets, facts, i + 1)
  }

  lemma ParkedNext(packets: seq<nat>, facts: nat -> Facts, i: nat, hand: multiset<nat>)
    requires i < |packets|
    ensures Parked(packets, facts, i) + hand ==
            if facts(packets[i]).parse.AwaitsFragments?
               then multiset{packets[i]} + (Parked(packets, facts, i + 1) + hand)
            else Parked(packets, facts, i + 1) + hand
  {}

  /** How many packets from position `i` on parse. */
  function ReadyFrom(packets: seq<nat>, facts: nat -> Facts, i: nat): nat
    requires i <= |packets|
    decreases |packets| - i
  {
    if i == |packets| then 0 else (if facts(packets[i]).parse.Ready? then 1 else 0) + ReadyFrom(packets, facts, i + 1)
  }

  lemma {:induction false} InHandOrParked(packets: seq<nat>, facts: nat -> Facts, i: nat)
    requires i <= |packets|
    ensures multiset(packets[i..]) == InHand(packets, facts, i) + Parked(packets, facts, i)
    decreases |packets| - i
  {
    if i < |packets| {
      InHandOrParked(packets, facts, i + 1);
      assert packets[i..] == [packets[i]] + packets[i + 1..];
    }
  }

  /** Parsed packets are numbered consecutively; the others are marked. */
  ghost predicate PlacedSoFar(packets: seq<nat>, facts: nat -> Facts, places: seq<Place>, n: nat) {
    && |places| <= |packets|
    && (forall i :: 0 <= i < |places| ==>
          && (places[i].Parsed? <==> facts(packets[i]).parse.Ready?)
          && (places[i].Waiting? <==> facts(packets[i]).parse.AwaitsFragments?))
    && (forall i :: 0 <= i < |places| && places[i].Parsed? ==> places[i].index < n)
    && (forall i, j :: 0 <= i < j < |places| && places[i].Parsed? && places[j].Parsed? ==>
        places[i].index < places[j].index)
  }

  lemma PlaceNext(packets: seq<nat>, facts: nat -> Facts, places: seq<Place>, n: nat)
    requires |places| < |packets| && PlacedSoFar(packets, facts, places, n)
    ensures var i := |places|;
            var status := facts(packets[i]).parse;
            var place := if status.Ready? then Place.Parsed(n)
                         else if status.AwaitsFragments? then Waiting else Unmapped;
            && PlacedSoFar(packets, facts, places + [place], if status.Ready? then n + 1 else n)
            && ReadyFrom(packets, facts, i) == ReadyFrom(packets, facts, i + 1) + if status.Ready? then 1 else 0
  {
    hide ReadyFrom;
    var i := |places|;
    var status := facts(packets[i]).parse;
    var place := if status.Ready? then Place.Parsed(n) else if status.AwaitsFragments? then Waiting else Unmapped;
    var more := places + [place];
    assert forall j :: 0 <= j < i ==> more[j] == places[j];
    assert more[i] == place;
    ReadyNext(packets, facts, i);
  }

  lemma HandNext(packets: seq<nat>, facts: nat -> Facts, i: nat)
    requires i < |packets|
    ensures var hand, rest := InHand(packets, facts, i), InHand(packets, facts, i + 1);
            if facts(packets[i]).parse.AwaitsFragments? then hand == rest
            else packets[i] in hand && hand - multiset{packets[i]} == rest
  {}

  lemma ReadyNext(packets: seq<nat>, facts: nat -> Facts, i: nat)
    requires i < |packets|
    ensures ReadyFrom(packets, facts, i) ==
            ReadyFrom(packets, facts, i + 1) + if facts(packets[i]).parse.Ready? then 1 else 0
  {}

  lemma AllInHandOrParked(packets: seq<nat>, facts: nat -> Facts)
    ensures multiset(packets) == Parked(packets, facts, 0) + InHand(packets, facts, 0)
    ensures Parked(packets, facts, |packets|) + InHand(packets, facts, 0) == InHand(packets, facts, 0)
    ensures ReadyFrom(packets, facts, |packets|) == 0
    ensures PlacedSoFar(packets, facts, [], 0)
  {
    InHandOrParked(packets, facts, 0);
    assert packets[0..] == packets;
  }

  /** The numbering is what the batched resolution relies on. */
  lemma PlacesFormABurst(packets: seq<nat>, facts: nat -> Facts, b: Burst)
    requires |b.places| <= MAX_BURST && PlacedSoFar(packets, facts, b.places, |b.metadata|)
    requires |b.metadata| <= MAX_BURST && |b.keys| == |b.metadata| && |b.cached| == |b.metadata|
    ensures BurstOk(b)
  {
    forall i, j | 0 <= i < j < |b.places| && b.places[i].Parsed? ensures b.places[i] != b.places[j] {
      if b.places[j].Parsed? {
        assert b.places[i].index < b.places[j].index;
      }
    }
  }

  // ---------------------------------------------------------------- what becomes of a burst

  /** A packet is passed on: it parses, is not dropped by the decision, nor for want of one, and its header can be
      rewritten. */
  predicate Forwards(policy: Policy, f: Facts) {
    var d := Decide(policy, f);
    f.parse.Ready? && f.macKnown && if d.matched then d.action == Forward else !policy.dropUnmatched
  }

  /** The packets of a burst that are passed on, in order. */
  function Passed(policy: Policy, facts: nat -> Facts, packets: seq<nat>): seq<nat> {
    if packets == [] then []
    else
      var n := |packets| - 1;
      Passed(policy, facts, packets[..n]) + if Forwards(policy, facts(packets[n])) then [packets[n]] else []
  }

  lemma {:induction false} PassedAre(policy: Policy, facts: nat -> Facts, packets: seq<nat>)
    ensures |Passed(policy, facts, packets)| <= |packets|
    ensures forall x :: x in Passed(policy, facts, packets) <==> x in packets && Forwards(policy, facts(x))
  {
    if packets != [] {
      hide Forwards;
      var n := |packets| - 1;
      PassedAre(policy, facts, packets[..n]);
      assert packets == packets[..n] + [packets[n]];
    }
  }

  /** Staging at the end of buffer `q`, if there is one. */
  function Fed(buffers: seq<seq<nat>>, q: nat, packets: seq<nat>): seq<seq<nat>> {
    if q < |buffers| then buffers[q := buffers[q] + packets] else buffers
  }

  /** How packets are counted. */
  datatype Fate = Parses | Broken | CacheHit | Matches | Unknown | DroppedByRule

  predicate Meets(fate: Fate, policy: Policy, f: Facts) {
    match fate
    case Parses => f.parse.Ready?
    case Broken => f.parse.Malformed?
    case CacheHit => f.parse.Ready? && f.cached.Some?
    case Matches => f.parse.Ready? && f.cached.None? && Decide(policy, f).matched
    case Unknown => f.parse.Ready? && !Decide(policy, f).matched
    case DroppedByRule => f.parse.Ready? && Decide(policy, f).matched && Decide(policy, f).action == Drop
  }

  function Count(fate: Fate, policy: Policy, facts: nat -> Facts, packets: seq<nat>): nat {
    if packets == [] then 0
    else
      var n := |packets| - 1;
      Count(fate, policy, facts, packets[..n]) + if Meets(fate, policy, facts(packets[n])) then 1 else 0
  }

  /** The counters that finalizing moves, apart from the dropped packets. */
  ghost predicate Tallied(policy: Policy, facts: nat -> Facts, packets: seq<nat>, c: Counters, c': Counters) {
    c' == c.(cacheHits := c.cacheHits + Count(CacheHit, policy, facts, packets),
             matched := c.matched + Count(Matches, policy, facts, packets),
             unknown := c.unknown + Count(Unknown, policy, facts, packets),
             droppedByRule := c.droppedByRule + Count(DroppedByRule, policy, facts, packets),
             dropped := c'.dropped)
  }

  /** The counters that a burst moves, apart from the dropped packets. */
  ghost predicate Counted(policy: Policy, facts: nat -> Facts, packets: seq<nat>, c: Counters, c': Counters) {
    Tallied(policy, facts, packets,
            c.(received := c.received + |packets|, parsed := c.parsed + Count(Parses, policy, facts, packets),
               malformed := c.malformed + Count(Broken, policy, facts, packets)), c')
  }

  lemma NextPacket(policy: Policy, facts: nat -> Facts, packets: seq<nat>, i: nat)
    requires i < |packets|
    ensures Passed(policy, facts, packets[..i + 1]) ==
            Passed(policy, facts, packets[..i]) + if Forwards(policy, facts(packets[i])) then [packets[i]] else []
    ensures forall fate :: Count(fate, policy, facts, packets[..i + 1]) ==
                           Count(fate, policy, facts, packets[..i])
                           + if Meets(fate, policy, facts(packets[i])) then 1 else 0
  {
    assert packets[..i + 1][..i] == packets[..i];
  }

  lemma ParkOne(c: Counters, l: Ledger, buffers: seq<seq<nat>>, rest: multiset<nat>, open: nat, packet: nat)
    requires Balanced(c, l, buffers, multiset{packet} + rest, open)
    ensures Balanced(c, l.(parked := l.parked + multiset{packet}), buffers, rest, open)
  {}

  /** Tokens received on the first `n` ports. */
  function Received(rx: nat -> seq<nat>, n: nat): multiset<nat> {
    if n == 0 then multiset{} else Received(rx, n - 1) + multiset(rx(n - 1))
  }

  // ---------------------------------------------------------------- the worker

  class Worker {
    const ports: seq<nat>
    const policy: Policy
    var counters: Counters
    var buffers: seq<seq<nat>>
    ghost var ledger: Ledger

    constructor (ports: seq<nat>, portCount: nat, policy: Policy)
      ensures this.ports == ports && this.policy == policy && |buffers| == portCount
      ensures counters == ZERO && ledger == EMPTY && forall q :: 0 <= q < portCount ==> buffers[q] == []
    {
      this.ports, this.policy := ports, policy;
      counters, ledger := ZERO, EMPTY;
      buffers := seq(portCount, _ => []);
    }

    ghost predicate Accounts(hand: multiset<nat>, open: nat)
      reads this
    {
      Balanced(counters, ledger, buffers, hand, open)
    }

    method DropPacket(packet: nat, byRule: bool, ghost hand: multiset<nat>, ghost open: nat)
      requires Accounts(hand, open) && packet in hand
      modifies this`counters, this`ledger
      ensures Accounts(hand - multiset{packet}, open)
      ensures ledger == old(ledger).(freed := old(ledger).freed + multiset{packet})
      ensures counters == old(counters).(dropped := old(counters).dropped + 1,
                                         droppedByRule := old(counters).droppedByRule + if byRule then 1 else 0)
    {
      FreeOne(counters, ledger, buffers, hand, open, packet, counters.droppedByRule + if byRule then 1 else 0);
      counters := counters.(dropped := counters.dropped + 1,
                            droppedByRule := counters.droppedByRule + if byRule then 1 else 0);
      ledger := ledger.(freed := ledger.freed + multiset{packet});
    }

    /** One turn of the parsing loop. */
    method ParseOne(packet: nat, status: ParseStatus, n: nat, ghost rest: multiset<nat>) returns (place: Place)
      requires Accounts(if status.AwaitsFragments? then multiset{packet} + rest else rest, n)
      modifies this`counters, this`ledger
      ensures Accounts(rest, if status.Ready? then n + 1 else n)
      ensures place == if status.Ready? then Place.Parsed(n) else if status.AwaitsFragments? then Waiting else Unmapped
      ensures ledger == old(ledger).(parked := ledger.parked)
      ensures counters == old(counters).(parsed := old(counters).parsed + if status.Ready? then 1 else 0,
                                         malformed := old(counters).malformed + if status.Malformed? then 1 else 0)
      ensures counters.parsed + counters.malformed + |ledger.parked| ==
              old(counters).parsed + old(counters).malformed + |old(ledger).parked| + 1
    {
      hide Balanced;
      match status {
        case Ready =>
          ParseCounts(counters, ledger, buffers, rest, n);
          counters := counters.(parsed := counters.parsed + 1);
          place := Place.Parsed(n);
        case AwaitsFragments =>
          ParkOne(counters, ledger, buffers, rest, n, packet);
          ledger := ledger.(parked := ledger.parked + multiset{packet});
          place := Waiting;
        case Malformed =>
          ParseCounts(counters, ledger, buffers, rest, n);
          counters := counters.(malformed := counters.malformed + 1);
          place := Unmapped;
      }
    }

    /** Parse the received packets. Incomplete fragments are handed to the fragment table. */
    method ParseReceived(packets: seq<nat>, facts: nat -> Facts) returns (places: seq<Place>, n: nat)
      requires Accounts(multiset(packets), 0)
      modifies this`counters, this`ledger
      ensures |places| == |packets| && PlacedSoFar(packets, facts, places, n) && n == ReadyFrom(packets, facts, 0)
      ensures Accounts(InHand(packets, facts, 0), n)
      ensures ledger == old(ledger).(parked := ledger.parked)
      ensures counters == old(counters).(parsed := old(counters).parsed + Count(Parses, policy, facts, packets),
                                         malformed := old(counters).malformed + Count(Broken, policy, facts, packets))
      ensures counters.parsed + counters.malformed + |ledger.parked| ==
              old(counters).parsed + old(counters).malformed + |old(ledger).parked| + |packets|
    {
      hide Balanced, InHand, Parked, ReadyFrom, PlacedSoFar, Count;
      NothingYet(policy, facts);
      AllInHandOrParked(packets, facts);
      places, n := [], 0;
      var i := 0;
      while i < |packets|
        invariant 0 <= i <= |packets| && |places| == i
        invariant PlacedSoFar(packets, facts, places, n) &&
                  n + ReadyFrom(packets, facts, i) == ReadyFrom(packets, facts, 0)
        invariant Accounts(Parked(packets, facts, i) + InHand(packets, facts, 0), n)
        invariant ledger == old(ledger).(parked := ledger.parked)
        invariant counters == old(counters).(parsed := old(counters).parsed + Count(Parses, policy, facts,
              packets[..i]),
                                             malformed := old(counters).malformed +
                                                          Count(Broken, policy, facts, packets[..i]))
        invariant counters.parsed + counters.malformed + |ledger.parked| ==
                  old(counters).parsed + old(counters).malformed + |old(ledger).parked| + i
      {
        NextPacket(policy, facts, packets, i);
        ParkedNext(packets, facts, i, InHand(packets, facts, 0));
        PlaceNext(packets, facts, places, n);
        var place := ParseOne(packets[i], facts(packets[i]).parse, n,
                              Parked(packets, facts, i + 1) + InHand(packets, facts, 0));
        places := places + [place];
        if place.Parsed? {
          n := n + 1;
        }
        i := i + 1;
      }
      assert packets[..|packets|] == packets;
    }

    /** Drop or stage one classified packet. */
    method Apply(packet: nat, port: nat, f: Facts, decision: Attempt, ghost hand: multiset<nat>, ghost open: nat)
      requires Accounts(hand, open) && packet in hand
      requires var q := TransmitPort(ports, port); q < |buffers| ==> |buffers[q]| < MAX_BURST
      modifies this
      ensures Accounts(hand - multiset{packet}, open)
      ensures counters == old(counters).(dropped := counters.dropped, droppedByRule := counters.droppedByRule)
      ensures ledger == old(ledger).(freed := ledger.freed)
      ensures counters.droppedByRule ==
              old(counters).droppedByRule + if decision.matched && decision.action == Drop then 1 else 0
      ensures buffers ==
              if Discards(policy, decision) || !f.macKnown then old(buffers)
              else Fed(old(buffers), TransmitPort(ports, port), [packet])
    {
      if decision.matched && decision.action == Drop {
        DropPacket(packet, true, hand, open);
        return;
      }
      if policy.dropUnmatched && !decision.matched {
        DropPacket(packet, false, hand, open);
        return;
      }
      var q := TransmitPort(ports, port);
      if q >= |buffers| || !f.macKnown {
        DropPacket(packet, false, hand, open);
        return;
      }
      StageOne(counters, ledger, buffers, hand, open, packet, q);
      buffers := buffers[q := buffers[q] + [packet]];
    }

    /** Classify one parsed packet: exactly one of the three classification counters moves. */
    method Classify(f: Facts) returns (decision: Attempt)
      modifies this`counters
      ensures decision == Decide(policy, f)
      ensures counters == if f.cached.Some? then old(counters).(cacheHits := old(counters).cacheHits + 1)
              else if decision.matched then old(counters).(matched := old(counters).matched + 1)
              else old(counters).(unknown := old(counters).unknown + 1)
    {
      if f.cached.Some? {
        counters := counters.(cacheHits := counters.cacheHits + 1);
        return Attempt(f.cached.value, true, false, None);
      }
      var attempt := TryDpi(policy, f);
      if attempt.matched {
        counters := counters.(matched := counters.matched + 1);
        return attempt;
      }
      if !f.spi.matched {
        counters := counters.(unknown := counters.unknown + 1);
        return PASS;
      }
      if attempt.deferred {
        counters := counters.(matched := counters.matched + 1);
        return Attempt(f.spi.action, true, false, None);
      }
      decision := Cached(policy, f.secondInsert, f.spi.action);
      if decision.matched {
        counters := counters.(matched := counters.matched + 1);
      } else {
        counters := counters.(unknown := counters.unknown + 1);
      }
    }

    /** Dispose of every packet of the burst that is still in hand: those that are passed on are staged in order, the
        others freed. */
    method Finalize(port: nat, packets: seq<nat>, places: seq<Place>, facts: nat -> Facts, ghost n: nat)
      requires |packets| == |places| <= MAX_BURST && PlacedSoFar(packets, facts, places, n)
      requires Accounts(InHand(packets, facts, 0), ReadyFrom(packets, facts, 0))
      requires var q := TransmitPort(ports, port); q < |buffers| ==> buffers[q] == []
      modifies this
      ensures Accounts(multiset{}, 0)
      ensures ledger == old(ledger).(freed := ledger.freed)
      ensures Tallied(policy, facts, packets, old(counters), counters)
      ensures buffers == Fed(old(buffers), TransmitPort(ports, port), Passed(policy, facts, packets))
    {
      hide Balanced, TransmitPort, Passed, Count, InHand, ReadyFrom, Fed, Forwards, Meets;
      NothingYet(policy, facts);
      AllDone(packets, facts);
      ghost var before, q := buffers, TransmitPort(ports, port);
      FedNothing(before, q);
      var i := 0;
      while i < |packets|
        invariant 0 <= i <= |packets|
        invariant Accounts(InHand(packets, facts, i), ReadyFrom(packets, facts, i))
        invariant ledger == old(ledger).(freed := ledger.freed)
        invariant Tallied(policy, facts, packets[..i], old(counters), counters)
        invariant buffers == Fed(old(buffers), TransmitPort(ports, port), Passed(policy, facts, packets[..i]))
      {
        NextPacket(policy, facts, packets, i);
        PassedAre(policy, facts, packets[..i]);
        FedMore(before, q, Passed(policy, facts, packets[..i]),
                if Forwards(policy, facts(packets[i])) then [packets[i]] else []);
        FinalizeOne(port, packets, places[i], facts, i);
        i := i + 1;
      }
      assert packets[..|packets|] == packets;
    }

    /** One turn of the finalizing loop. */
    method FinalizeOne(port: nat, packets: seq<nat>, place: Place, facts: nat -> Facts, i: nat)
      requires i < |packets| <= MAX_BURST
      requires place.Parsed? <==> facts(packets[i]).parse.Ready?
      requires place.Waiting? <==> facts(packets[i]).parse.AwaitsFragments?
      requires Accounts(InHand(packets, facts, i), ReadyFrom(packets, facts, i))
      requires var q := TransmitPort(ports, port); q < |buffers| ==> |buffers[q]| < MAX_BURST
      modifies this
      ensures Accounts(InHand(packets, facts, i + 1), ReadyFrom(packets, facts, i + 1))
      ensures ledger == old(ledger).(freed := ledger.freed)
      ensures var f := facts(packets[i]);
              counters == old(counters).(
              cacheHits := old(counters).cacheHits + if Meets(CacheHit, policy, f) then 1 else 0,
              matched := old(counters).matched + if Meets(Matches, policy, f) then 1 else 0,
              unknown := old(counters).unknown + if Meets(Unknown, policy, f) then 1 else 0,
              droppedByRule := old(counters).droppedByRule + if Meets(DroppedByRule, policy, f) then 1 else 0,
              dropped := counters.dropped)
      ensures buffers == Fed(old(buffers), TransmitPort(ports, port),
                             if Forwards(policy, facts(packets[i])) then [packets[i]] else [])
    {
      hide Staged, TransmitPort, Decide, Fed, Balanced, InHand, ReadyFrom;
      FedNothing(buffers, TransmitPort(ports, port));
      HandNext(packets, facts, i);
      ReadyNext(packets, facts, i);
      ghost var hand, open := InHand(packets, facts, i), ReadyFrom(packets, facts, i + 1);
      if place.Waiting? {
        return;
      }
      if place.Unmapped? {
        DropPacket(packets[i], false, hand, open);
      } else {
        Dispose(packets[i], port, facts(packets[i]), hand, open);
      }
    }

    /** Classify a parsed packet and drop or stage it. */
    method Dispose(packet: nat, port: nat, f: Facts, ghost hand: multiset<nat>, ghost open: nat)
      requires Accounts(hand, open + 1) && packet in hand && f.parse.Ready?
      requires var q := TransmitPort(ports, port); q < |buffers| ==> |buffers[q]| < MAX_BURST
      modifies this
      ensures Accounts(hand - multiset{packet}, open)
      ensures ledger == old(ledger).(freed := ledger.freed)
      ensures counters == old(counters).(
              cacheHits := old(counters).cacheHits + if Meets(CacheHit, policy, f) then 1 else 0,
              matched := old(counters).matched + if Meets(Matches, policy, f) then 1 else 0,
              unknown := old(counters).unknown + if Meets(Unknown, policy, f) then 1 else 0,
              droppedByRule := old(counters).droppedByRule + if Meets(DroppedByRule, policy, f) then 1 else 0,
              dropped := counters.dropped)
      ensures buffers == Fed(old(buffers), TransmitPort(ports, port), if Forwards(policy, f) then [packet] else [])
    {
      hide Staged, TransmitPort, Decide, Fed;
      FedNothing(buffers, TransmitPort(ports, port));
      CachedIsMatched(policy, f);
      var decision := Classify(f);
      assert Accounts(hand, open);
      hide Balanced;
      Apply(packet, port, f, decision, hand, open);
    }

    /** Receive, parse and finalize on one port. */
    method ProcessPortBurst(port: nat, packets: seq<nat>, facts: nat -> Facts)
      requires |packets| <= MAX_BURST && Accounts(multiset{}, 0)
      requires var q := TransmitPort(ports, port); q < |buffers| ==> buffers[q] == []
      modifies this
      ensures Accounts(multiset{}, 0)
      ensures ledger.arrived == old(ledger).arrived + multiset(packets) && ledger.sent == old(ledger).sent
      ensures Counted(policy, facts, packets, old(counters), counters)
      ensures counters.parsed + counters.malformed + |ledger.parked| ==
              old(counters).parsed + old(counters).malformed + |old(ledger).parked| + |packets|
      ensures buffers == Fed(old(buffers), TransmitPort(ports, port), Passed(policy, facts, packets))
    {
      hide Staged, TransmitPort, InHand, Count, Passed, Fed, Balanced;
      NothingYet(policy, facts);
      FedNothing(buffers, TransmitPort(ports, port));
      BurstArrives(counters, ledger, buffers, packets);
      counters := counters.(received := counters.received + |packets|);
      ledger := ledger.(arrived := ledger.arrived + multiset(packets));
      if packets == [] {
        return;
      }
      var places, n := ParseReceived(packets, facts);
      Finalize(port, packets, places, facts, n);
    }

    method FlushPort(q: nat, accepted: nat -> nat)
      requires q < |buffers| && Accounts(multiset{}, 0)
      modifies this
      ensures Accounts(multiset{}, 0) && buffers == old(buffers)[q := []]
      ensures ledger.arrived == old(ledger).arrived && ledger.parked == old(ledger).parked
      ensures ledger.sent == old(ledger).sent + multiset(Taken(old(buffers)[q], accepted(q)))
      ensures counters == old(counters).(transmitted := counters.transmitted, dropped := counters.dropped)
    {
      hide Balanced;
      var count := |buffers[q]|;
      if count > 0 {
        var k := Min(accepted(q), count);
        FlushOne(counters, ledger, buffers, q, k);
        counters := counters.(transmitted := counters.transmitted + k, dropped := counters.dropped + (count - k));
        ledger := ledger.(sent := ledger.sent + multiset(buffers[q][..k]),
                          freed := ledger.freed + multiset(buffers[q][k..]));
        buffers := buffers[q := []];
      }
    }

    /** Transmit every staged packet, freeing what the device does not take. */
    method FlushTransmitBuffers(accepted: nat -> nat)
      requires Accounts(multiset{}, 0)
      requires forall i :: 0 <= i < |ports| ==> ports[i] < |buffers|
      requires forall q :: 0 <= q < |buffers| && buffers[q] != [] ==> q in ports
      modifies this
      ensures Accounts(multiset{}, 0) && |buffers| == old(|buffers|)
      ensures forall q :: 0 <= q < |buffers| ==> buffers[q] == []
      ensures ledger.arrived == old(ledger).arrived && ledger.parked == old(ledger).parked
      ensures DistinctPorts(ports) ==> ledger.sent == old(ledger).sent + Flushed(old(buffers), ports, accepted, |ports|)
      ensures counters == old(counters).(transmitted := counters.transmitted, dropped := counters.dropped)
    {
      hide Balanced, OnlyFrom, FlushedSoFar;
      ghost var started, sent := buffers, ledger.sent;
      FlushStarts(ports, buffers, accepted, sent);
      var i := 0;
      while i < |ports|
        invariant 0 <= i <= |ports| && |buffers| == old(|buffers|) && Accounts(multiset{}, 0)
        invariant FlushedSoFar(ports, started, buffers, accepted, i, sent, ledger.sent)
        invariant OnlyFrom(ports, i, buffers)
        invariant ledger.arrived == old(ledger).arrived && ledger.parked == old(ledger).parked
        invariant counters == old(counters).(transmitted := counters.transmitted, dropped := counters.dropped)
      {
        FlushGoesOn(ports, started, buffers, accepted, i, sent, ledger.sent);
        FlushPort(ports[i], accepted);
        i := i + 1;
      }
      FlushEnds(ports, started, buffers, accepted, sent, ledger.sent);
    }

    method Reset()
      modifies this
      ensures counters == ZERO && ledger == EMPTY && |buffers| == old(|buffers|)
      ensures forall q :: 0 <= q < |buffers| ==> buffers[q] == []
      ensures Accounts(multiset{}, 0)
    {
      counters, ledger := ZERO, EMPTY;
      buffers := seq(|buffers|, _ => []);
      StagedEmpty(buffers);
    }

    /** Receive on every active port in turn. No staging buffer is fed by two ports: the buffer of each port
        ends up with what its neighbour received and passes on. */
    method ReceiveOnAllPorts(rx: nat -> seq<nat>, facts: nat -> Facts)
      requires DistinctPorts(ports) && ledger == EMPTY && counters == ZERO && Accounts(multiset{}, 0)
      requires forall i :: 0 <= i < |ports| ==> |rx(i)| <= MAX_BURST
      requires forall q :: 0 <= q < |buffers| ==> buffers[q] == []
      modifies this
      ensures Accounts(multiset{}, 0) && |buffers| == old(|buffers|)
      ensures ledger.arrived == Received(rx, |ports|) && ledger.sent == multiset{}
      ensures counters.parsed + counters.malformed + |ledger.parked| == |ledger.arrived|
      ensures Totals(policy, facts, rx, |ports|, counters)
      ensures StagedAs(ports, policy, facts, rx, |ports|, buffers)
    {
      hide Balanced, TransmitPort, Staged, Passed, DistinctPorts, Count, Total, Totals, StagedAs, Fed, Counted;
      AllEmpty(ports, policy, facts, rx, buffers);
      var i := 0;
      while i < |ports|
        invariant 0 <= i <= |ports| && |buffers| == old(|buffers|) && Accounts(multiset{}, 0)
        invariant StagedAs(ports, policy, facts, rx, i, buffers)
        invariant ledger.arrived == Received(rx, i) && ledger.sent == multiset{}
        invariant counters.parsed + counters.malformed + |ledger.parked| == |ledger.arrived|
        invariant Totals(policy, facts, rx, i, counters)
      {
        ghost var before, sofar := buffers, counters;
        NeighbourIsEmpty(ports, policy, facts, rx, i, before);
        assert Received(rx, i + 1) == Received(rx, i) + multiset(rx(i));
        ProcessPortBurst(ports[i], rx(i), facts);
        StagedNext(ports, policy, facts, rx, i, before);
        FedMore(before, TransmitPort(ports, ports[i]), Passed(policy, facts, rx(i)), []);
        TotalsNext(policy, facts, rx, i, sofar, counters);
        i := i + 1;
      }
    }

    /** One worker iteration over all active ports. Every received token is transmitted, dropped or parked,
        exactly once; what is transmitted on a port is as much as the device takes of what its neighbour
        received and passes on, in order; and every parsed packet is a cache hit, a match or unknown, counted
        by its decision. */
    method ProcessWorkerIteration(rx: nat -> seq<nat>, facts: nat -> Facts, accepted: nat -> nat)
      requires DistinctPorts(ports) && forall i :: 0 <= i < |ports| ==> ports[i] < |buffers|
      requires forall i :: 0 <= i < |ports| ==> |rx(i)| <= MAX_BURST
      modifies this
      ensures ledger.arrived == Received(rx, |ports|)
      ensures ledger.arrived == ledger.sent + ledger.freed + ledger.parked
      ensures ledger.sent == Transmitted(policy, facts, rx, ports, accepted, |ports|)
      ensures counters.received == counters.transmitted + counters.dropped + |ledger.parked|
      ensures counters.received == counters.parsed + counters.malformed + |ledger.parked|
      ensures counters.parsed == counters.cacheHits + counters.matched + counters.unknown
      ensures Totals(policy, facts, rx, |ports|, counters)
      ensures forall q :: 0 <= q < |buffers| ==> buffers[q] == []
    {
      hide Balanced, Staged, DistinctPorts, Received, Passed, Total, Flushed, Transmitted;
      Reset();
      ReceiveOnAllPorts(rx, facts);
      FlushedIsTransmitted(ports, policy, facts, rx, accepted, buffers, |ports|);
      FlushTransmitBuffers(accepted);
      StagedEmpty(buffers);
      Settled(counters, ledger, buffers);
    }
  }

  lemma ParseCounts(c: Counters, l: Ledger, buffers: seq<seq<nat>>, hand: multiset<nat>, open: nat)
    requires Balanced(c, l, buffers, hand, open)
    ensures Balanced(c.(parsed := c.parsed + 1), l, buffers, hand, open + 1)
    ensures Balanced(c.(malformed := c.malformed + 1), l, buffers, hand, open)
  {
    hide Staged;
  }

  /** Only buffers of ports from position `i` on are in use. */
  ghost predicate OnlyFrom(ports: seq<nat>, i: nat, buffers: seq<seq<nat>>)
    requires i <= |ports|
  {
    forall q :: 0 <= q < |buffers| && buffers[q] != [] ==> q in ports[i..]
  }

  /** With distinct ports: what the first `i` ports have sent, and that the others' buffers are as they were. */
  ghost predicate FlushedSoFar(ports: seq<nat>, started: seq<seq<nat>>, now: seq<seq<nat>>, accepted: nat -> nat,
                               i: nat,
                               before: multiset<nat>, sent: multiset<nat>)
    requires i <= |ports| && forall j :: 0 <= j < |ports| ==> ports[j] < |started|
  {
    && |now| == |started|
    && (DistinctPorts(ports) ==>
          && (forall j :: i <= j < |ports| ==> now[ports[j]] == started[ports[j]])
          && sent == before + Flushed(started, ports, accepted, i))
  }

  lemma FlushStarts(ports: seq<nat>, buffers: seq<seq<nat>>, accepted: nat -> nat, sent: multiset<nat>)
    requires forall j :: 0 <= j < |ports| ==> ports[j] < |buffers|
    requires forall q :: 0 <= q < |buffers| && buffers[q] != [] ==> q in ports
    ensures OnlyFrom(ports, 0, buffers) && FlushedSoFar(ports, buffers, buffers, accepted, 0, sent, sent)
  {
    assert ports[0..] == ports;
  }

  lemma FlushGoesOn(ports: seq<nat>, started: seq<seq<nat>>, now: seq<seq<nat>>, accepted: nat -> nat, i: nat,
                    before: multiset<nat>, sent: multiset<nat>)
    requires i < |ports| && forall j :: 0 <= j < |ports| ==> ports[j] < |started|
    requires FlushedSoFar(ports, started, now, accepted, i, before, sent) && OnlyFrom(ports, i, now)
    ensures |now| == |started| && OnlyFrom(ports, i + 1, now[ports[i] := []])
    ensures FlushedSoFar(ports, started, now[ports[i] := []], accepted, i + 1, before,
                         sent + multiset(Taken(now[ports[i]], accepted(ports[i]))))
  {
    hide Taken;
    assert ports[i..] == [ports[i]] + ports[i + 1..];
  }

  lemma FlushEnds(ports: seq<nat>, started: seq<seq<nat>>, now: seq<seq<nat>>, accepted: nat -> nat,
                  before: multiset<nat>, sent: multiset<nat>)
    requires forall j :: 0 <= j < |ports| ==> ports[j] < |started|
    requires FlushedSoFar(ports, started, now, accepted, |ports|, before, sent) && OnlyFrom(ports, |ports|, now)
    ensures forall q :: 0 <= q < |now| ==> now[q] == []
    ensures DistinctPorts(ports) ==> sent == before + Flushed(started, ports, accepted, |ports|)
  {}

  lemma BurstArrives(c: Counters, l: Ledger, buffers: seq<seq<nat>>, packets: seq<nat>)
    requires Balanced(c, l, buffers, multiset{}, 0)
    ensures Balanced(c.(received := c.received + |packets|), l.(arrived := l.arrived + multiset(packets)), buffers,
                     multiset(packets), 0)
    ensures packets == [] ==> multiset(packets) == multiset{}
  {
    hide Staged;
  }

  lemma NothingYet(policy: Policy, facts: nat -> Facts)
    ensures Passed(policy, facts, []) == [] && forall fate :: Count(fate, policy, facts, []) == 0
  {}

  lemma AllDone(packets: seq<nat>, facts: nat -> Facts)
    ensures InHand(packets, facts, |packets|) == multiset{} && ReadyFrom(packets, facts, |packets|) == 0
  {}

  lemma CachedIsMatched(policy: Policy, f: Facts)
    ensures f.cached.Some? ==> Decide(policy, f).matched
  {}

  lemma FedNothing(buffers: seq<seq<nat>>, q: nat)
    ensures |Fed(buffers, q, [])| == |buffers| && Fed(buffers, q, []) == buffers
  {
    if q < |buffers| {
      assert buffers[q] + [] == buffers[q];
    }
  }

  lemma FedMore(buffers: seq<seq<nat>>, q: nat, a: seq<nat>, b: seq<nat>)
    ensures Fed(Fed(buffers, q, a), q, b) == Fed(buffers, q, a + b)
    ensures |Fed(buffers, q, a)| == |buffers| && (q < |buffers| ==> Fed(buffers, q, a)[q] == buffers[q] + a)
  {
    if q < |buffers| {
      assert buffers[q] + a + b == buffers[q] + (a + b);
    }
  }

  lemma Settled(c: Counters, l: Ledger, buffers: seq<seq<nat>>)
    requires Balanced(c, l, buffers, multiset{}, 0) && Staged(buffers) == multiset{}
    ensures l.arrived == l.sent + l.freed + l.parked
    ensures c.received == |l.arrived| && c.received == c.transmitted + c.dropped + |l.parked|
    ensures c.parsed == c.cacheHits + c.matched + c.unknown
  {
    hide Staged;
  }

  // ---------------------------------------------------------------- all ports

  /** As much of a buffer as the device takes. */
  function Taken(buffer: seq<nat>, accepted: nat): seq<nat> {
    buffer[..Min(accepted, |buffer|)]
  }

  /** What flushing the buffers of the first `n` ports sends. */
  ghost function Flushed(buffers: seq<seq<nat>>, ports: seq<nat>, accepted: nat -> nat, n: nat): multiset<nat>
    requires n <= |ports| && forall i :: 0 <= i < |ports| ==> ports[i] < |buffers|
  {
    if n == 0 then multiset{}
    else Flushed(buffers, ports, accepted, n - 1) + multiset(Taken(buffers[ports[n - 1]], accepted(ports[n - 1])))
  }

  /** What leaves on port `j` of the list: as much as the device takes of what its neighbour received and passes on. */
  function Leaving(policy: Policy, facts: nat -> Facts, rx: nat -> seq<nat>, ports: seq<nat>, accepted: nat -> nat,
                   j: nat): seq<nat>
    requires j < |ports|
  {
    Taken(Passed(policy, facts, rx(Partner(|ports|, j))), accepted(ports[j]))
  }

  /** What leaves on the first `n` ports. */
  ghost function Transmitted(policy: Policy, facts: nat -> Facts, rx: nat -> seq<nat>, ports: seq<nat>,
                             accepted: nat -> nat, n: nat): multiset<nat>
    requires n <= |ports|
  {
    if n == 0 then multiset{}
    else
      Transmitted(policy, facts, rx, ports, accepted, n - 1)
      + multiset(Leaving(policy, facts, rx, ports, accepted, n - 1))
  }

  /** Only buffers of active ports are in use, and each holds what its neighbour passed on, if that is among
      the first `n` ports. */
  ghost predicate StagedAs(ports: seq<nat>, policy: Policy, facts: nat -> Facts, rx: nat -> seq<nat>, n: nat,
                           buffers: seq<seq<nat>>) {
    && (forall q :: 0 <= q < |buffers| && q !in ports ==> buffers[q] == [])
    && (forall j :: 0 <= j < |ports| && ports[j] < |buffers| ==>
          var i := Partner(|ports|, j);
          buffers[ports[j]] == if i < n then Passed(policy, facts, rx(i)) else [])
  }

  function Total(fate: Fate, policy: Policy, facts: nat -> Facts, rx: nat -> seq<nat>, n: nat): nat {
    if n == 0 then 0 else Total(fate, policy, facts, rx, n - 1) + Count(fate, policy, facts, rx(n - 1))
  }

  /** The counters after the bursts of the first `n` ports. */
  ghost predicate Totals(policy: Policy, facts: nat -> Facts, rx: nat -> seq<nat>, n: nat, c: Counters) {
    && c.parsed == Total(Parses, policy, facts, rx, n) && c.malformed == Total(Broken, policy, facts, rx, n)
    && c.cacheHits == Total(CacheHit, policy, facts, rx, n) && c.matched == Total(Matches, policy, facts, rx, n)
    && c.unknown == Total(Unknown, policy, facts, rx, n)
    && c.droppedByRule == Total(DroppedByRule, policy, facts, rx, n)
  }

  lemma AllEmpty(ports: seq<nat>, policy: Policy, facts: nat -> Facts, rx: nat -> seq<nat>, buffers: seq<seq<nat>>)
    requires forall q :: 0 <= q < |buffers| ==> buffers[q] == []
    ensures StagedAs(ports, policy, facts, rx, 0, buffers) && Totals(policy, facts, rx, 0, ZERO)
  {
    hide Passed;
  }

  lemma TotalsNext(policy: Policy, facts: nat -> Facts, rx: nat -> seq<nat>, n: nat, c: Counters, c': Counters)
    requires Totals(policy, facts, rx, n, c) && Counted(policy, facts, rx(n), c, c')
    ensures Totals(policy, facts, rx, n + 1, c')
  {
    hide Count;
  }

  lemma PartnerIsInvolution(n: nat, i: nat)
    requires i < n
    ensures Partner(n, Partner(n, i)) == i
  {}

  /** The neighbour's place in the port list. */
  lemma TransmitsOnPartner(ports: seq<nat>, i: nat)
    requires DistinctPorts(ports) && i < |ports|
    ensures TransmitPort(ports, ports[i]) == ports[Partner(|ports|, i)]
  {
    hide TransmitPort;
    PairsNeighbours(ports, i, 0);
  }

  /** No buffer is fed twice: a transmit port belongs to one receive port. */
  lemma NeighbourIsEmpty(ports: seq<nat>, policy: Policy, facts: nat -> Facts, rx: nat -> seq<nat>, i: nat,
                         buffers: seq<seq<nat>>)
    requires DistinctPorts(ports) && i < |ports| && StagedAs(ports, policy, facts, rx, i, buffers)
    ensures var q := TransmitPort(ports, ports[i]); q < |buffers| ==> buffers[q] == []
  {
    hide TransmitPort, Passed;
    TransmitsOnPartner(ports, i);
    PartnerIsInvolution(|ports|, i);
  }

  lemma StagedNext(ports: seq<nat>, policy: Policy, facts: nat -> Facts, rx: nat -> seq<nat>, i: nat,
                   before: seq<seq<nat>>)
    requires DistinctPorts(ports) && i < |ports| && StagedAs(ports, policy, facts, rx, i, before)
    ensures StagedAs(ports, policy, facts, rx, i + 1,
                     Fed(before, TransmitPort(ports, ports[i]), Passed(policy, facts, rx(i))))
  {
    hide TransmitPort, Passed;
    TransmitsOnPartner(ports, i);
    PartnerIsInvolution(|ports|, i);
    var k := Partner(|ports|, i);
    var after := Fed(before, ports[k], Passed(policy, facts, rx(i)));
    forall j | 0 <= j < |ports| && ports[j] < |after|
      ensures after[ports[j]] ==
              var p := Partner(|ports|, j); if p < i + 1 then Passed(policy, facts, rx(p)) else []
    {
      PartnerIsInvolution(|ports|, j);
      if j != k {
        assert ports[j] != ports[k];
        assert Partner(|ports|, j) != i;
      }
    }
  }

  lemma {:induction false} FlushedIsTransmitted(ports: seq<nat>, policy: Policy, facts: nat -> Facts,
                                                rx: nat -> seq<nat>, accepted: nat -> nat, buffers: seq<seq<nat>>,
                                                  n: nat)
    requires n <= |ports| && forall i :: 0 <= i < |ports| ==> ports[i] < |buffers|
    requires StagedAs(ports, policy, facts, rx, |ports|, buffers)
    ensures Flushed(buffers, ports, accepted, n) == Transmitted(policy, facts, rx, ports, accepted, n)
  {
    hide Passed, Leaving, StagedAs, Taken;
    if n > 0 {
      LeavesItsBuffer(ports, policy, facts, rx, accepted, buffers, n - 1);
      FlushedIsTransmitted(ports, policy, facts, rx, accepted, buffers, n - 1);
    }
  }

  lemma LeavesItsBuffer(ports: seq<nat>, policy: Policy, facts: nat -> Facts, rx: nat -> seq<nat>,
                        accepted: nat -> nat, buffers: seq<seq<nat>>, j: nat)
    requires j < |ports| && ports[j] < |buffers| && StagedAs(ports, policy, facts, rx, |ports|, buffers)
    ensures Taken(buffers[ports[j]], accepted(ports[j])) == Leaving(policy, facts, rx, ports, accepted, j)
  {
    hide Passed, Taken;
  }

  /** Which packets leave: exactly those that are passed on and lie within what the device takes on the port
      that is paired with the one they were received on. */
  lemma {:induction false} TransmittedAre(policy: Policy, facts: nat -> Facts, rx: nat -> seq<nat>, ports: seq<nat>,
                                          accepted: nat -> nat, n: nat, packet: nat)
    requires n <= |ports|
    ensures packet in Transmitted(policy, facts, rx, ports, accepted, n) <==>
            exists j :: 0 <= j < n && packet in Leaving(policy, facts, rx, ports, accepted, j)
    ensures packet in Transmitted(policy, facts, rx, ports, accepted, n) ==> Forwards(policy, facts(packet))
  {
    hide Leaving, Forwards;
    if n > 0 {
      TransmittedAre(policy, facts, rx, ports, accepted, n - 1, packet);
      var out := Leaving(policy, facts, rx, ports, accepted, n - 1);
      InSum(Transmitted(policy, facts, rx, ports, accepted, n - 1), out, packet);
      if packet in out {
        LeavingForwards(policy, facts, rx, ports, accepted, n - 1, packet);
      }
    }
  }

  lemma LeavingForwards(policy: Policy, facts: nat -> Facts, rx: nat -> seq<nat>, ports: seq<nat>,
                        accepted: nat -> nat, j: nat, packet: nat)
    requires j < |ports| && packet in Leaving(policy, facts, rx, ports, accepted, j)
    ensures packet in rx(Partner(|ports|, j)) && Forwards(policy, facts(packet))
  {
    hide Forwards, Passed;
    PassedAre(policy, facts, rx(Partner(|ports|, j)));
  }

  lemma InSum(m: multiset<nat>, s: seq<nat>, x: nat)
    ensures x in m + multiset(s) <==> x in m || x in s
  {
    assert x in s <==> x in multiset(s);
  }
}
