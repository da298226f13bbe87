/** The tuple-space table: exact five-tuple filters in an open-addressed table of 128 slots, probed before
    the ACL. */
module TupleSpace {
  import opened Machine
  import opened Packet
  import opened Prefix
  import opened FlowStore
  import opened RuleMatching
  import opened MemberFilter

  const CAPACITY: nat := 128
  const NO_HIT: U32 := 0xFFFF_FFFF

  datatype Entry = Entry(key: FlowKey, group: U32)

  const UNUSED: Entry := Entry(FlowKey(0, 0, 0, 0, Tcp), NO_HIT)

  /** Every field given, no network. */
  predicate Eligible(f: Filter) {
    f.source.Some? && f.destination.Host? && f.sourcePort.Some? && f.destinationPort.Some?
  }

  /** The key stored for a filter: its own fields, in host byte order and in the order they were written. */
  function FilterKey(f: Filter): FlowKey
    requires Eligible(f)
  {
    FlowKey(f.source.value, f.destination.address, f.sourcePort.value, f.destinationPort.value, f.protocol)
  }

  // ---------------------------------------------------------------- reference: a list searched front to back

  function GroupEntries(group: Group, g: U32, n: nat): seq<Entry>
    requires n <= |group.filters|
  {
    if n == 0 then []
    else GroupEntries(group, g, n - 1) + if Eligible(group.filters[n - 1])
         then [Entry(FilterKey(group.filters[n - 1]), g)] else []
  }

  /** The eligible filters of the first `n` groups, in scan order. */
  function Entries(groups: seq<Group>, n: nat): seq<Entry>
    requires n <= |groups| < TWO_32
  {
    if n == 0 then [] else Entries(groups, n - 1) + GroupEntries(groups[n - 1], n - 1, |groups[n - 1].filters|)
  }

  function FirstOwner(entries: seq<Entry>, key: FlowKey): U32 {
    if entries == [] then NO_HIT
    else if entries[0].key == key then entries[0].group
    else FirstOwner(entries[1..], key)
  }

  /** What fits: the table silently drops entries beyond its capacity. */
  function Fitting(entries: seq<Entry>): seq<Entry> {
    if |entries| <= CAPACITY then entries else entries[..CAPACITY]
  }

  lemma {:induction false} FirstOwnerAt(entries: seq<Entry>, key: FlowKey, e: nat)
    requires e < |entries| && entries[e].key == key && forall i :: 0 <= i < e ==> entries[i].key != key
    ensures FirstOwner(entries, key) == entries[e].group
  {
    if e > 0 {
      FirstOwnerAt(entries[1..], key, e - 1);
    }
  }

  lemma {:induction false} NoOwner(entries: seq<Entry>, key: FlowKey)
    requires forall i :: 0 <= i < |entries| ==> entries[i].key != key
    ensures FirstOwner(entries, key) == NO_HIT
  {
    if entries != [] {
      NoOwner(entries[1..], key);
    }
  }

  // ---------------------------------------------------------------- the open-addressed table

  function SlotAt(h: U32, probe: nat): (s: nat)
    ensures s < CAPACITY
  {
    (h + probe) % CAPACITY
  }

  /** `owner[s]` is the entry in slot `s`, or -1; `distance[e]` how far entry `e` sits from its home slot. Every
      slot an entry was pushed past belongs to an earlier entry. */
  ghost predicate Layout(table: seq<Entry>, hash: FlowKey -> U32, stored: seq<Entry>, owner: seq<int>,
                         distance: seq<nat>) {
    && |table| == CAPACITY && |owner| == CAPACITY && |distance| == |stored|
    && (forall s :: 0 <= s < CAPACITY ==> -1 <= owner[s] < |stored|)
    && (forall s :: 0 <= s < CAPACITY ==>
          if owner[s] < 0 then table[s].group == NO_HIT
          else table[s] == stored[owner[s]] && s == SlotAt(hash(stored[owner[s]].key), distance[owner[s]]))
    && (forall e :: 0 <= e < |stored| ==> stored[e].group != NO_HIT && distance[e] < CAPACITY)
    && (forall e :: 0 <= e < |stored| ==> owner[SlotAt(hash(stored[e].key), distance[e])] == e)
    && (forall e, j :: 0 <= e < |stored| && 0 <= j < distance[e] ==> 0 <= owner[SlotAt(hash(stored[e].key), j)] < e)
  }

  ghost predicate Represents(table: seq<Entry>, hash: FlowKey -> U32, stored: seq<Entry>) {
    exists owner, distance :: Layout(table, hash, stored, owner, distance)
  }

  lemma EmptyTable(hash: FlowKey -> U32)
    ensures Represents(seq(CAPACITY, _ => UNUSED), hash, [])
  {
    assert Layout(seq(CAPACITY, _ => UNUSED), hash, [], seq(CAPACITY, _ => -1), []);
  }

  /** Placing a new entry in the first free slot of its probe sequence. */
  lemma Placed(table: seq<Entry>, hash: FlowKey -> U32, stored: seq<Entry>, entry: Entry, probe: nat)
    requires Represents(table, hash, stored) && |table| == CAPACITY && entry.group != NO_HIT && probe < CAPACITY
    requires table[SlotAt(hash(entry.key), probe)].group == NO_HIT
    requires forall j :: 0 <= j < probe ==> table[SlotAt(hash(entry.key), j)].group != NO_HIT
    ensures Represents(table[SlotAt(hash(entry.key), probe) := entry], hash, stored + [entry])
  {
    hide SlotAt;
    var owner, distance :| Layout(table, hash, stored, owner, distance);
    var s := SlotAt(hash(entry.key), probe);
    assert owner[s] < 0;
    forall j | 0 <= j < probe ensures 0 <= owner[SlotAt(hash(entry.key), j)] < |stored| {
    }
    LayoutPlaced(table, hash, stored, owner, distance, entry, probe, s);
  }

  lemma LayoutPlaced(table: seq<Entry>, hash: FlowKey -> U32, stored: seq<Entry>, owner: seq<int>, distance: seq<nat>,
                     entry: Entry, probe: nat, s: nat)
    requires Layout(table, hash, stored, owner, distance) && entry.group != NO_HIT && probe < CAPACITY
    requires s == SlotAt(hash(entry.key), probe) && s < CAPACITY && owner[s] < 0
    requires forall j :: 0 <= j < probe ==>
             var t := SlotAt(hash(entry.key), j); t < CAPACITY && 0 <= owner[t] < |stored|
    ensures Layout(table[s := entry], hash, stored + [entry], owner[s := |stored|], distance + [probe])
  {
    hide SlotAt;
    var stored', owner', distance' := stored + [entry], owner[s := |stored|], distance + [probe];
    forall e | 0 <= e < |stored'| ensures owner'[SlotAt(hash(stored'[e].key), distance'[e])] == e {
    }
    forall e, j | 0 <= e < |stored'| && 0 <= j < distance'[e] ensures 0 <= owner'[SlotAt(hash(stored'[e].key), j)] < e {
    }
  }

  /** A probe sequence reaches every slot. */
  lemma ProbeReaches(h: U32, s: nat)
    requires s < CAPACITY
    ensures exists j: nat :: j < CAPACITY && SlotAt(h, j) == s
  {
    var j := (s - h) % CAPACITY;
    assert SlotAt(h, j) == s;
  }

  lemma {:induction false} DistinctBelow(a: seq<int>, n: nat)
    requires forall i :: 0 <= i < |a| ==> 0 <= a[i] < n
    requires forall i, j :: 0 <= i < j < |a| ==> a[i] != a[j]
    ensures |a| <= n
  {
    if |a| > 0 {
      assert 0 <= a[0] < n;
      if n - 1 in a {
        var i :| 0 <= i < |a| && a[i] == n - 1;
        DistinctBelow(a[..i] + a[i + 1..], n - 1);
      } else {
        forall i | 0 <= i < |a| ensures a[i] < n - 1 {
          assert a[i] in a;
        }
        DistinctBelow(a, n - 1);
      }
    }
  }

  /** The table has an unused slot exactly while fewer than 128 entries are stored. */
  lemma FullExactlyAtCapacity(table: seq<Entry>, hash: FlowKey -> U32, stored: seq<Entry>)
    requires Represents(table, hash, stored)
    ensures |table| == CAPACITY && |stored| <= CAPACITY
    ensures |stored| < CAPACITY <==> exists s :: 0 <= s < CAPACITY && table[s].group == NO_HIT
  {
    hide SlotAt, Layout;
    var owner, distance :| Layout(table, hash, stored, owner, distance);
    EntriesFit(table, hash, stored, owner, distance, -1);
    if s :| 0 <= s < CAPACITY && table[s].group == NO_HIT {
      EntriesFit(table, hash, stored, owner, distance, s);
    } else {
      AllOwned(table, hash, stored, owner, distance);
    }
  }

  /** Entries occupy distinct slots, none of them the unused slot `s`. */
  lemma EntriesFit(table: seq<Entry>, hash: FlowKey -> U32, stored: seq<Entry>, owner: seq<int>, distance: seq<nat>,
                   s: int)
    requires Layout(table, hash, stored, owner, distance)
    requires 0 <= s < CAPACITY && s < |table| ==> table[s].group == NO_HIT
    ensures |table| == CAPACITY && |stored| <= if 0 <= s < CAPACITY then CAPACITY - 1 else CAPACITY
  {
    hide SlotAt;
    var slots: seq<int> := seq(|stored|, e requires 0 <= e < |stored| => SlotAt(hash(stored[e].key), distance[e]));
    assert forall e :: 0 <= e < |slots| ==> 0 <= slots[e] < CAPACITY && owner[slots[e]] == e;
    hide Layout;
    assert forall i, j :: 0 <= i < j < |slots| ==> slots[i] != slots[j];
    if 0 <= s < CAPACITY {
      assert owner[s] < 0;
      DistinctBelow(slots + [s], CAPACITY);
    } else {
      DistinctBelow(slots, CAPACITY);
    }
  }

  lemma AllOwned(table: seq<Entry>, hash: FlowKey -> U32, stored: seq<Entry>, owner: seq<int>, distance: seq<nat>)
    requires Layout(table, hash, stored, owner, distance)
    requires forall s :: 0 <= s < CAPACITY ==> table[s].group != NO_HIT
    ensures |stored| >= CAPACITY
  {
    hide SlotAt;
    forall s, t | 0 <= s < t < CAPACITY ensures owner[s] != owner[t] {
      assert s == SlotAt(hash(stored[owner[s]].key), distance[owner[s]]);
    }
    DistinctBelow(owner, |stored|);
  }

  /** Store one filter; a full table drops it. */
  method StoreEntry(table: array<Entry>, hash: FlowKey -> U32, ghost stored: seq<Entry>,
                    entry: Entry) returns (done: bool)
    requires table.Length == CAPACITY && Represents(table[..], hash, stored) && entry.group != NO_HIT
    modifies table
    ensures done <==> |stored| < CAPACITY
    ensures Represents(table[..], hash, if done then stored + [entry] else stored)
  {
    hide Represents, SlotAt;
    FullExactlyAtCapacity(table[..], hash, stored);
    var h := hash(entry.key);
    var probe := 0;
    while probe < CAPACITY
      invariant 0 <= probe <= CAPACITY && table[..] == old(table[..])
      invariant forall j :: 0 <= j < probe ==> 0 <= SlotAt(h, j) < CAPACITY && table[SlotAt(h, j)].group != NO_HIT
    {
      var slot := SlotAt(h, probe);
      if table[slot].group == NO_HIT {
        Placed(table[..], hash, stored, entry, probe);
        table[slot] := entry;
        assert table[..] == old(table[..])[slot := entry];
        return true;
      }
      probe := probe + 1;
    }
    forall s | 0 <= s < CAPACITY ensures table[s].group != NO_HIT {
      ProbeReaches(h, s);
    }
    done := false;
  }

  /** The table holds what fits of `all`. */
  ghost predicate Holds(table: seq<Entry>, size: nat, hash: FlowKey -> U32, all: seq<Entry>) {
    Represents(table, hash, Fitting(all)) && size == |Fitting(all)|
  }

  /** Scan one group. */
  method ScanGroup(table: array<Entry>, size: nat, hash: FlowKey -> U32, group: Group, g: U32, ghost all: seq<Entry>)
    returns (size': nat, unbounded: bool)
    requires table.Length == CAPACITY && Holds(table[..], size, hash, all) && g != NO_HIT
    modifies table
    ensures Holds(table[..], size', hash, all + GroupEntries(group, g, |group.filters|))
    ensures unbounded <==> exists f :: 0 <= f < |group.filters| && Unbounded(group.filters[f])
  {
    hide Represents, FilterKey, Eligible, Unbounded;
    size', unbounded := size, false;
    var f := 0;
    assert all + [] == all;
    while f < |group.filters|
      invariant 0 <= f <= |group.filters|
      invariant Holds(table[..], size', hash, all + GroupEntries(group, g, f))
      invariant unbounded <==> exists e :: 0 <= e < f && Unbounded(group.filters[e])
    {
      if Unbounded(group.filters[f]) {
        unbounded := true;
      }
      ghost var now := all + GroupEntries(group, g, f);
      if Eligible(group.filters[f]) {
        var entry := Entry(FilterKey(group.filters[f]), g);
        var done := StoreEntry(table, hash, Fitting(now), entry);
        if done {
          size' := size' + 1;
        }
        assert all + GroupEntries(group, g, f + 1) == now + [entry];
        FittingNext(now, entry);
      } else {
        assert all + GroupEntries(group, g, f + 1) == now;
      }
      f := f + 1;
    }
  }

  lemma FittingNext(all: seq<Entry>, entry: Entry)
    ensures Fitting(all + [entry]) == if |Fitting(all)| < CAPACITY then Fitting(all) + [entry] else Fitting(all)
  {}

  /** Build the table and the unbounded-destination flag from the sorted groups. */
  method BuildTss(groups: seq<Group>, hash: FlowKey -> U32) returns (table: array<Entry>, size: nat, unbounded: bool)
    requires |groups| < NO_HIT
    ensures fresh(table) && table.Length == CAPACITY
    ensures Holds(table[..], size, hash, Entries(groups, |groups|))
    ensures unbounded <==> SomeUnbounded(groups)
  {
    hide Represents, GroupEntries, Unbounded;
    table, size, unbounded := new Entry[CAPACITY](_ => UNUSED), 0, false;
    EmptyTable(hash);
    assert table[..] == seq(CAPACITY, _ => UNUSED);
    var g := 0;
    while g < |groups|
      invariant 0 <= g <= |groups| && fresh(table) && table.Length == CAPACITY
      invariant Holds(table[..], size, hash, Entries(groups, g))
      invariant unbounded <==> UnboundedBefore(groups, g)
    {
      hide Holds;
      var more;
      size, more := ScanGroup(table, size, hash, groups[g], g, Entries(groups, g));
      UnboundedNext(groups, g);
      unbounded := unbounded || more;
      g := g + 1;
    }
  }

  ghost predicate UnboundedBefore(groups: seq<Group>, g: nat) {
    exists h: nat, e: nat :: IsFilter(groups, h, e) && h < g && Unbounded(groups[h].filters[e])
  }

  lemma UnboundedNext(groups: seq<Group>, g: nat)
    requires g < |groups|
    ensures UnboundedBefore(groups, g + 1) <==>
            UnboundedBefore(groups, g) || exists f :: 0 <= f < |groups[g].filters| && Unbounded(groups[g].filters[f])
  {
    hide Unbounded;
    if f :| 0 <= f < |groups[g].filters| && Unbounded(groups[g].filters[f]) {
      assert IsFilter(groups, g, f);
    }
  }

  /** Probe for a key: the open-addressed search answers as the search through the list of stored entries. */
  method ProbeTss(table: array<Entry>, size: nat, hash: FlowKey -> U32, key: FlowKey,
                  ghost stored: seq<Entry>) returns (r: U32)
    requires table.Length == CAPACITY && Represents(table[..], hash, stored) && size == |stored|
    ensures r == FirstOwner(stored, key)
  {
    hide Represents, SlotAt, FirstOwner;
    if size == 0 {
      NoOwner(stored, key);
      return NO_HIT;
    }
    var h := hash(key);
    var probe := 0;
    while probe < CAPACITY
      invariant 0 <= probe <= CAPACITY
      invariant forall j :: 0 <= j < probe ==>
                  var s := SlotAt(h, j); 0 <= s < CAPACITY && table[s].group != NO_HIT && table[s].key != key
    {
      var slot := SlotAt(h, probe);
      if table[slot].group == NO_HIT || table[slot].key == key {
        ProbeStops(table[..], hash, stored, key, probe);
        return table[slot].group;
      }
      probe := probe + 1;
    }
    ProbeExhausted(table[..], hash, stored, key);
    r := NO_HIT;
  }

  ghost predicate PassedBy(table: seq<Entry>, h: U32, key: FlowKey, probe: nat)
    requires |table| == CAPACITY
  {
    forall j :: 0 <= j < probe ==>
           var s := SlotAt(h, j); 0 <= s < CAPACITY && table[s].group != NO_HIT && table[s].key != key
  }

  /** An entry for the key cannot lie beyond where the probe stopped: everything before it is occupied. */
  lemma NotYetPassed(table: seq<Entry>, hash: FlowKey -> U32, stored: seq<Entry>, owner: seq<int>,
                     distance: seq<nat>, key: FlowKey, probe: nat, e: nat)
    requires Layout(table, hash, stored, owner, distance) && PassedBy(table, hash(key), key, probe)
    requires e < |stored| && stored[e].key == key
    ensures distance[e] >= probe
  {
    hide SlotAt;
    assert table[SlotAt(hash(key), distance[e])] == stored[e];
  }

  lemma ProbeStops(table: seq<Entry>, hash: FlowKey -> U32, stored: seq<Entry>, key: FlowKey, probe: nat)
    requires Represents(table, hash, stored) && |table| == CAPACITY && probe < CAPACITY
    requires PassedBy(table, hash(key), key, probe)
    requires var s := SlotAt(hash(key), probe); table[s].group == NO_HIT || table[s].key == key
    ensures FirstOwner(stored, key) == table[SlotAt(hash(key), probe)].group
  {
    hide SlotAt;
    var owner, distance :| Layout(table, hash, stored, owner, distance);
    var s := SlotAt(hash(key), probe);
    forall e | 0 <= e < |stored| && stored[e].key == key ensures owner[s] >= 0 && owner[s] <= e {
      NotYetPassed(table, hash, stored, owner, distance, key, probe, e);
      if distance[e] == probe {
        assert owner[s] == e;
      } else {
        assert 0 <= owner[SlotAt(hash(stored[e].key), probe)] < e;
      }
    }
    if owner[s] < 0 {
      NoOwner(stored, key);
    } else {
      var e := owner[s];
      FirstOwnerAt(stored, key, e);
    }
  }

  lemma ProbeExhausted(table: seq<Entry>, hash: FlowKey -> U32, stored: seq<Entry>, key: FlowKey)
    requires Represents(table, hash, stored) && |table| == CAPACITY && PassedBy(table, hash(key), key, CAPACITY)
    ensures FirstOwner(stored, key) == NO_HIT
  {
    hide SlotAt;
    var owner, distance :| Layout(table, hash, stored, owner, distance);
    forall e | 0 <= e < |stored| ensures stored[e].key != key {
      if stored[e].key == key {
        NotYetPassed(table, hash, stored, owner, distance, key, CAPACITY, e);
      }
    }
    NoOwner(stored, key);
  }

  // ---------------------------------------------------------------- what a hit means

  lemma {:induction false} GroupEntriesAre(group: Group, g: U32, n: nat, i: nat)
    requires n <= |group.filters| && i < |GroupEntries(group, g, n)|
    ensures GroupEntries(group, g, n)[i].group == g
    ensures exists f: nat ::
              f < n && Eligible(group.filters[f]) && GroupEntries(group, g, n)[i].key == FilterKey(group.filters[f])
  {
    hide Eligible;
    if i < |GroupEntries(group, g, n - 1)| {
      GroupEntriesAre(group, g, n - 1, i);
    }
  }

  ghost predicate Owns(groups: seq<Group>, g: nat, f: nat, key: FlowKey) {
    IsFilter(groups, g, f) && Eligible(groups[g].filters[f]) && FilterKey(groups[g].filters[f]) == key
  }

  lemma {:induction false} EntriesAre(groups: seq<Group>, n: nat, i: nat)
    requires n <= |groups| < TWO_32 && i < |Entries(groups, n)|
    ensures Entries(groups, n)[i].group < n
    ensures exists f: nat :: Owns(groups, Entries(groups, n)[i].group, f, Entries(groups, n)[i].key)
  {
    hide Eligible, FilterKey;
    var head := Entries(groups, n - 1);
    if i < |head| {
      EntriesAre(groups, n - 1, i);
    } else {
      var last := groups[n - 1];
      GroupEntriesAre(last, n - 1, |last.filters|, i - |head|);
      var f: nat :| f < |last.filters| && Eligible(last.filters[f]) &&
          GroupEntries(last, n - 1, |last.filters|)[i - |head|].key == FilterKey(last.filters[f]);
      assert Owns(groups, n - 1, f, Entries(groups, n)[i].key);
    }
  }

  lemma {:induction false} EntriesAscend(groups: seq<Group>, n: nat, i: nat, j: nat)
    requires n <= |groups| < TWO_32 && i <= j < |Entries(groups, n)|
    ensures Entries(groups, n)[i].group <= Entries(groups, n)[j].group
  {
    var head := Entries(groups, n - 1);
    if j < |head| {
      EntriesAscend(groups, n - 1, i, j);
    } else {
      GroupEntriesAre(groups[n - 1], n - 1, |groups[n - 1].filters|, j - |head|);
      EntriesAre(groups, n, i);
    }
  }

  lemma {:induction false} GroupEntriesHold(group: Group, g: U32, n: nat, f: nat)
    requires f < n <= |group.filters| && Eligible(group.filters[f])
    ensures Entry(FilterKey(group.filters[f]), g) in GroupEntries(group, g, n)
  {
    if f < n - 1 {
      GroupEntriesHold(group, g, n - 1, f);
    }
  }

  lemma {:induction false} EntriesHold(groups: seq<Group>, n: nat, g: nat, f: nat, key: FlowKey)
    requires g < n <= |groups| < TWO_32 && Owns(groups, g, f, key)
    ensures Entry(key, g) in Entries(groups, n)
  {
    if g < n - 1 {
      EntriesHold(groups, n - 1, g, f, key);
    } else {
      GroupEntriesHold(groups[g], g, |groups[g].filters|, f);
    }
  }

  /** Whatever the number of eligible filters: a hit names the first group that has an eligible filter with
      that key, which has the smallest precedence of all of them; there is no hit exactly when none of the
      stored ones has the key, and if all fit, exactly when none has it at all. */
  lemma TssPicksSmallestPrecedence(groups: seq<Group>, key: FlowKey)
    requires |groups| < NO_HIT && SortedByPrecedence(groups)
    ensures var entries := Entries(groups, |groups|);
            var r := FirstOwner(Fitting(entries), key);
            && (r == NO_HIT <==> forall e :: 0 <= e < |Fitting(entries)| ==> Fitting(entries)[e].key != key)
            && (|entries| <= CAPACITY ==> (r == NO_HIT <==> forall g: nat, f: nat :: !Owns(groups, g, f, key)))
            && (r != NO_HIT ==> r < |groups| && (exists f: nat :: Owns(groups, r, f, key)))
            && (r != NO_HIT ==> forall h: nat, e: nat | Owns(groups, h, e, key) ::
                                  r <= h && groups[r].precedence <= groups[h].precedence)
  {
    hide Eligible, FilterKey, FirstOwner, Entries;
    var n := |groups|;
    var entries := Entries(groups, n);
    forall h: nat, e: nat | Owns(groups, h, e, key) ensures Entry(key, h) in entries {
      EntriesHold(groups, n, h, e, key);
    }
    if e :| 0 <= e < |Fitting(entries)| && Fitting(entries)[e].key == key {
      var first := FirstWith(Fitting(entries), key, e);
      FirstOwnerAt(Fitting(entries), key, first);
      EntriesAre(groups, n, first);
      forall h: nat, x: nat | Owns(groups, h, x, key) ensures entries[first].group <= h {
        var j :| 0 <= j < |entries| && entries[j] == Entry(key, h);
        EntriesAscend(groups, n, first, if j >= first then j else first);
        assert j >= first;
      }
    } else {
      NoOwner(Fitting(entries), key);
    }
  }

  lemma {:induction false} FirstWith(entries: seq<Entry>, key: FlowKey, e: nat) returns (first: nat)
    requires e < |entries| && entries[e].key == key
    ensures first <= e && entries[first].key == key && forall i :: 0 <= i < first ==> entries[i].key != key
    decreases e
  {
    if i :| 0 <= i < e && entries[i].key == key {
      first := FirstWith(entries, key, i);
    } else {
      first := e;
    }
  }

  /** The key a packet of this filter is looked up under. */
  function PacketKey(f: Filter): FlowKey
    requires Eligible(f)
  {
    MakeCanonical(Swap32(f.source.value), Swap32(f.destination.address), Swap16(f.sourcePort.value),
                  Swap16(f.destinationPort.value), f.protocol)
  }

  lemma PacketsShareTheKey(f: Filter, m: Metadata)
    requires Eligible(f) && m.version.Ipv4? && FilterMatches(f, m)
    ensures FlowStore.KeyOf(m) == PacketKey(f)
  {
    SwapTwice(m.sourceIp);
    SwapTwice(m.destinationIp);
    SwapTwice16(m.sourcePort);
    SwapTwice16(m.destinationPort);
    hide Swap32, Swap16;
  }

  /** Entry `e` is the one a probe for `key` stops at. */
  ghost predicate FoundAt(stored: seq<Entry>, key: FlowKey, e: nat) {
    e < |stored| && stored[e].key == key && forall i :: 0 <= i < e ==> stored[i].key != key
  }

  /** Packets are looked up under their canonical network-order key, filters are stored under their host-order key as
      written: the entry of an eligible filter, if it is the first with its key, is what a probe for an IPv4 packet the
      filter matches finds, if and only if the two keys of the filter coincide. */
  lemma TssFindsItsPacketsIff(stored: seq<Entry>, e: nat, f: Filter, m: Metadata)
    requires Eligible(f) && FoundAt(stored, FilterKey(f), e) && m.version.Ipv4? && FilterMatches(f, m)
    ensures FoundAt(stored, FlowStore.KeyOf(m), e) <==> PacketKey(f) == FilterKey(f)
    ensures PacketKey(f) == FilterKey(f) ==> FirstOwner(stored, FlowStore.KeyOf(m)) == stored[e].group
  {
    hide FilterMatches, FirstOwner, PacketKey;
    PacketsShareTheKey(f, m);
    FirstOwnerAt(stored, FilterKey(f), e);
  }

  /** The bytes of the field read the same in both orders. */
  predicate Palindromic(f: Filter)
    requires Eligible(f)
  {
    && Swap32(f.source.value) == f.source.value && Swap32(f.destination.address) == f.destination.address
    && Swap16(f.sourcePort.value) == f.sourcePort.value && Swap16(f.destinationPort.value) == f.destinationPort.value
  }

  /** Every IPv4 packet looked up under the stored key is one the filter matches. */
  ghost predicate OnlyItsPackets(f: Filter)
    requires Eligible(f)
  {
    forall m: Metadata | m.version.Ipv4? && FlowStore.KeyOf(m) == FilterKey(f) :: FilterMatches(f, m)
  }

  function PacketWith(k: FlowKey): Metadata {
    Metadata(k.srcIp, k.dstIp, seq(16, _ => 0), seq(16, _ => 0), k.srcPort, k.dstPort, 0, 0, k.protocol, Ipv4)
  }

  /** A stored filter answers for its own packets only, exactly when no packet has its key, because the key is not in
      canonical order, or when all its fields are byte palindromes and its two endpoints are the same. Every other
      eligible filter also answers for packets it does not match. */
  lemma TssOnlyItsPacketsIff(f: Filter)
    requires Eligible(f)
    ensures OnlyItsPackets(f) <==>
            || After(f.source.value, f.sourcePort.value, f.destination.address, f.destinationPort.value)
            || (Palindromic(f) && f.source.value == f.destination.address &&
                f.sourcePort.value == f.destinationPort.value)
  {
    hide Swap32, Swap16;
    var k := FilterKey(f);
    if !After(k.srcIp, k.srcPort, k.dstIp, k.dstPort) {
      var m := PacketWith(k);
      assert FlowStore.KeyOf(m) == k;
      var back := PacketWith(FlowKey(k.dstIp, k.srcIp, k.dstPort, k.srcPort, k.protocol));
      assert FlowStore.KeyOf(back) == k;
      assert FilterMatches(f, m) <==> Palindromic(f);
    }
  }

  /** The packet with the given addresses and ports, in host byte order. */
  function PacketOf(protocol: Protocol, source: U32, destination: U32, sourcePort: U16,
                    destinationPort: U16): Metadata {
    PacketWith(FlowKey(Swap32(source), Swap32(destination), Swap16(sourcePort), Swap16(destinationPort), protocol))
  }

  /** All IPv4 packets the filter matches have the same addresses and ports. */
  ghost predicate OneTuple(f: Filter) {
    forall m: Metadata, n: Metadata | m.version.Ipv4? && n.version.Ipv4? && FilterMatches(f, m) &&
           FilterMatches(f, n) ::
      && m.sourceIp == n.sourceIp && m.destinationIp == n.destinationIp && m.protocol == n.protocol
      && m.sourcePort == n.sourcePort && m.destinationPort == n.destinationPort
  }

  lemma PacketOfReads(p: Protocol, s: U32, d: U32, sp: U16, dp: U16)
    ensures var m := PacketOf(p, s, d, sp, dp);
            && SourceWord(m) == s && DestinationWord(m) == d && Swap16(m.sourcePort) == sp
            && Swap16(m.destinationPort) == dp && m.protocol == p && m.version == Ipv4
  {
    SwapTwice(s);
    SwapTwice(d);
    SwapTwice16(sp);
    SwapTwice16(dp);
    hide Swap32, Swap16;
  }

  /** Which filters the tuple-space table takes: those that name no network and that match packets of one tuple only. */
  lemma EligibleIff(f: Filter)
    ensures Eligible(f) <==> OneTuple(f) && !f.destination.Network?
  {
    hide FilterMatches, Swap32, Swap16, Sample;
    if Eligible(f) {
      forall m: Metadata, n: Metadata
        | m.version.Ipv4? && n.version.Ipv4? && FilterMatches(f, m) && FilterMatches(f, n)
        ensures m.sourceIp == n.sourceIp && m.destinationIp == n.destinationIp && m.protocol == n.protocol
        ensures m.sourcePort == n.sourcePort && m.destinationPort == n.destinationPort
      {
        EligibleMatches(f, m);
        EligibleMatches(f, n);
      }
    } else if !f.destination.Network? {
      SampleMatches(f, 0);
      SampleMatches(f, 1);
      var x, y := Sample(f, 0), Sample(f, 1);
      assert OneTuple(f) ==> x.sourceIp == y.sourceIp && x.destinationIp == y.destinationIp
                             && x.sourcePort == y.sourcePort && x.destinationPort == y.destinationPort;
    }
  }

  /** What an eligible filter says of the raw fields of a packet. */
  lemma EligibleMatches(f: Filter, m: Metadata)
    requires Eligible(f) && m.version.Ipv4? && FilterMatches(f, m)
    ensures m.sourceIp == Swap32(f.source.value) && m.destinationIp == Swap32(f.destination.address)
    ensures m.sourcePort == Swap16(f.sourcePort.value) && m.destinationPort == Swap16(f.destinationPort.value)
    ensures m.protocol == f.protocol
  {
    SwapTwice(m.sourceIp);
    SwapTwice(m.destinationIp);
    SwapTwice16(m.sourcePort);
    SwapTwice16(m.destinationPort);
    hide Swap32, Swap16;
  }

  /** A packet the filter matches, with `v` in every field the filter does not name. */
  function Sample(f: Filter, v: Byte): Metadata {
    PacketOf(f.protocol, if f.source.Some? then f.source.value else v,
             if f.destination.Host? then f.destination.address else v,
             if f.sourcePort.Some? then f.sourcePort.value else v,
             if f.destinationPort.Some? then f.destinationPort.value else v)
  }

  lemma SampleMatches(f: Filter, v: Byte)
    requires !f.destination.Network?
    ensures var m := Sample(f, v);
            && FilterMatches(f, m) && m.version == Ipv4
            && (f.source.None? ==> SourceWord(m) == v) && (f.destination.Anywhere? ==> DestinationWord(m) == v)
            && (f.sourcePort.None? ==> Swap16(m.sourcePort) == v)
            && (f.destinationPort.None? ==> Swap16(m.destinationPort) == v)
  {
    PacketOfReads(f.protocol, if f.source.Some? then f.source.value else v,
                  if f.destination.Host? then f.destination.address else v,
                  if f.sourcePort.Some? then f.sourcePort.value else v,
                  if f.destinationPort.Some? then f.destinationPort.value else v);
    hide PacketOf, Swap16, Swap32;
  }

  /** For example, a filter from 1.2.3.4:258 to 5.6.7.8:772 is not found for its own packets, but is found for
      packets from 4.3.2.1:513 to 8.7.6.5:1027. */
  lemma TssFindsForeignPacket(m: Metadata)
    requires m.version.Ipv4? && m.protocol.Tcp?
    requires m.sourceIp == 0x01020304 && m.destinationIp == 0x05060708 && m.sourcePort == 0x0102 &&
             m.destinationPort == 0x0304
    ensures var f := Filter(Tcp, Some(0x01020304), Host(0x05060708), Some(0x0102), Some(0x0304), "");
            Eligible(f) && PacketKey(f) != FilterKey(f) && FlowStore.KeyOf(m) == FilterKey(f) && !FilterMatches(f, m)
  {
    SwapExamples();
    hide Swap32, Swap16;
  }

  lemma SwapExamples()
    ensures Swap32(0x01020304) == 0x04030201 && Swap32(0x05060708) == 0x08070605
    ensures Swap16(0x0102) == 0x0201 && Swap16(0x0304) == 0x0403
  {}
}
