/** What the flow table holds and what its operations do to it: the specification of
    include/dpdk/spi/spi_flow_table.hpp and spi_flow_table.cpp. */
module FlowStore {
  import opened Machine
  import opened Packet

  // ---------------------------------------------------------------- keys

  datatype FlowKey = FlowKey(srcIp: U32, dstIp: U32, srcPort: U16, dstPort: U16, protocol: Protocol)

  predicate After(ip1: U32, port1: U16, ip2: U32, port2: U16) {
    ip1 > ip2 || (ip1 == ip2 && port1 > port2)
  }

  function MakeCanonical(sip: U32, dip: U32, sp: U16, dp: U16, protocol: Protocol): FlowKey {
    if After(sip, sp, dip, dp) then FlowKey(dip, sip, dp, sp, protocol) else FlowKey(sip, dip, sp, dp, protocol)
  }

  function KeyOf(m: Metadata): FlowKey {
    MakeCanonical(m.sourceIp, m.destinationIp, m.sourcePort, m.destinationPort, m.protocol)
  }

  /** Two IPv4 packets share a flow entry exactly when they belong to the same connection, in either
      direction. */
  lemma CanonicalKeysAreConnections(m: Metadata, n: Metadata)
    ensures KeyOf(m) == KeyOf(n) <==>
            && m.protocol == n.protocol
            && (|| (m.sourceIp == n.sourceIp && m.sourcePort == n.sourcePort
                    && m.destinationIp == n.destinationIp && m.destinationPort == n.destinationPort)
                || (m.sourceIp == n.destinationIp && m.sourcePort == n.destinationPort
                    && m.destinationIp == n.sourceIp && m.destinationPort == n.sourcePort))
  {}

  // ---------------------------------------------------------------- packed words

  function Code(a: Action): int {
    if a.Forward? then 0 else 1
  }

  /** Count in the upper 60 bits, action in the lower four. */
  function Pack(count: U64, action: Action): U64 {
    count * 16 % TWO_64 + Code(action)
  }

  function ActionOf(packed: U64): Action {
    if packed % 16 == 0 then Forward else Drop
  }

  function CountOf(packed: U64): U64 {
    packed / 16
  }

  /** The action always survives packing; the count does exactly when it fits in 60 bits; and an entry
      is indistinguishable from an empty slot exactly when its (truncated) count is zero and it forwards. */
  lemma PackedWordsReadBack(count: U64, action: Action)
    ensures ActionOf(Pack(count, action)) == action
    ensures CountOf(Pack(count, action)) == count <==> count < TWO_64 / 16
    ensures Pack(count, action) == 0 <==> count % (TWO_64 / 16) == 0 && action == Forward
  {
    ShiftedCount(count);
    PackedParts(count % (TWO_64 / 16), Code(action));
  }

  lemma PackedParts(q: nat, code: nat)
    requires code < 16
    ensures (q * 16 + code) % 16 == code && (q * 16 + code) / 16 == q
  {}

  lemma ShiftedCount(count: U64)
    ensures count * 16 % TWO_64 == count % (TWO_64 / 16) * 16
  {
    var k, q := count / (TWO_64 / 16), count % (TWO_64 / 16);
    assert count * 16 == TWO_64 * k + 16 * q;
    assert (TWO_64 * k + 16 * q) % TWO_64 == 16 * q;
  }

  // ---------------------------------------------------------------- the store

  datatype Slot = Slot(packed: U64, lastSeen: U64)

  /** `index` is the hash table's data pointers, `keyAt` its key positions, `data` the slot array,
      `free` the LIFO free list. */
  datatype Store = Store(
    index: map<FlowKey, nat>,
    keyAt: map<nat, FlowKey>,
    data: seq<Slot>,
    free: seq<nat>)

  /** Positions and keys of the hash table correspond one to one. Positions are the hash table's own: there may be more
      of them than slots. */
  ghost predicate HashOk(s: Store) {
    && (forall p | p in s.keyAt :: s.keyAt[p] in s.index)
    && (forall k | k in s.index :: exists p :: p in s.keyAt && s.keyAt[p] == k)
    && (forall p, q | p in s.keyAt && q in s.keyAt && s.keyAt[p] == s.keyAt[q] :: p == q)
  }

  ghost predicate Bounded(s: Store) {
    forall k | k in s.index :: s.index[k] < |s.data|
  }

  ghost predicate FreeInRange(s: Store) {
    forall i :: 0 <= i < |s.free| ==> s.free[i] < |s.data|
  }

  /** Live slots and the free list partition the slot array, and no slot serves two keys. */
  ghost predicate SlotsOk(s: Store) {
    && Bounded(s)
    && (forall k | k in s.index :: s.index[k] !in s.free)
    && (forall k, l | k in s.index && l in s.index && s.index[k] == s.index[l] :: k == l)
    && FreeInRange(s)
    && (forall i, j :: 0 <= i < j < |s.free| ==> s.free[i] != s.free[j])
    && (forall i :: 0 <= i < |s.data| ==> i in s.free || Owned(s, i))
  }

  ghost predicate Balanced(s: Store) {
    |s.index| + |s.free| == |s.data|
  }

  ghost predicate Owned(s: Store, i: nat) {
    exists k :: k in s.index && s.index[k] == i
  }

  ghost predicate Consistent(s: Store) {
    HashOk(s) && SlotsOk(s) && Balanced(s)
  }

  /** The assumption behind the purge and the migration: the key at hash position `p` keeps its data in
      slot `p`. */
  ghost predicate PositionOwnsSlot(s: Store) {
    forall p | p in s.keyAt :: s.keyAt[p] in s.index && s.index[s.keyAt[p]] == p
  }

  /** What a caller can observe: a map from flow key to packed action and count. */
  ghost function View(s: Store): map<FlowKey, U64>
    requires Bounded(s)
  {
    map k | k in s.index :: s.data[s.index[k]].packed
  }

  /** The same with timestamps: a map from flow key to slot contents. */
  ghost function Timed(s: Store): map<FlowKey, Slot>
    requires Bounded(s)
  {
    map k | k in s.index :: s.data[s.index[k]]
  }

  /** The map without its timestamps. */
  ghost function Words(m: map<FlowKey, Slot>): map<FlowKey, U64> {
    map k | k in m :: m[k].packed
  }

  lemma ViewIsTimed(s: Store)
    requires Bounded(s)
    ensures View(s) == Words(Timed(s)) && Timed(s).Keys == s.index.Keys
  {}

  function Fresh(capacity: nat): Store {
    Store(map[], map[], seq(capacity, _ => Slot(0, 0)), seq(capacity, i => i))
  }

  lemma FreshConsistent(capacity: nat)
    ensures Consistent(Fresh(capacity)) && View(Fresh(capacity)) == map[]
  {
    var s := Fresh(capacity);
    forall i | 0 <= i < capacity ensures i in s.free {
      assert s.free[i] == i;
    }
  }

  // ---------------------------------------------------------------- insert and lookup

  datatype InsertResult = Ok | Full

  /** Where the hash table puts a new key: an unused position, or nowhere (-ENOSPC). */
  ghost predicate ValidPlace(s: Store, place: Option<nat>) {
    place.Some? ==> place.value !in s.keyAt
  }

  /** Pop a slot, fill it, and register it under `key`; a refused registration pushes the slot back. */
  function Added(s: Store, key: FlowKey, word: U64, now: U64, place: Option<nat>): (Store, InsertResult)
    requires FreeInRange(s)
  {
    if s.free == [] then (s, Full)
    else
      var slot := s.free[|s.free| - 1];
      var filled := s.(data := s.data[slot := Slot(word, now)]);
      if place.None? then (filled, Full)
      else (filled.(free := s.free[..|s.free| - 1],
            index := s.index[key := slot], keyAt := s.keyAt[place.value := key]), Ok)
  }

  function Inserted(s: Store, key: FlowKey, count: U64, action: Action, now: U64, place: Option<nat>)
    : (Store, InsertResult)
    requires FreeInRange(s) && Bounded(s)
  {
    if key in s.index then (s.(data := s.data[s.index[key] := Slot(Pack(count, action), now)]), Ok)
    else Added(s, key, Pack(count, action), now, place)
  }

  /** Rewriting slot contents does not disturb ownership. */
  lemma RewriteKeepsConsistent(s: Store, data: seq<Slot>)
    requires Consistent(s) && |data| == |s.data|
    ensures Consistent(s.(data := data))
  {
    var s' := s.(data := data);
    forall i | 0 <= i < |s.data| ensures i in s'.free || Owned(s', i) {
      if Owned(s, i) {
        var k :| k in s.index && s.index[k] == i;
        assert s'.index[k] == i;
      }
    }
  }

  lemma BoundedByConsistency(s: Store)
    requires SlotsOk(s)
    ensures Bounded(s) && FreeInRange(s)
  {}

  lemma AddedConsistent(s: Store, key: FlowKey, word: U64, now: U64, place: Option<nat>)
    requires Consistent(s) && (s.free != [] ==> ValidPlace(s, place)) && key !in s.index
    ensures var (s', r) := Added(s, key, word, now, place);
            && Consistent(s')
            && View(s') == (if r == Ok then View(s)[key := word] else View(s))
            && Timed(s') == (if r == Ok then Timed(s)[key := Slot(word, now)] else Timed(s))
            && (r == Full <==> s.free == [] || place.None?)
  {
    hide HashOk, SlotsOk, Balanced, View, Timed, Bounded;
    BoundedByConsistency(s);
    if s.free != [] {
      var slot := s.free[|s.free| - 1];
      assert slot in s.free;
      var filled := s.(data := s.data[slot := Slot(word, now)]);
      FillingFreeSlot(s, slot, Slot(word, now));
      if place.Some? {
        Registered(filled, key, slot, place.value);
      }
    }
  }

  lemma FillingFreeSlot(s: Store, slot: nat, content: Slot)
    requires Consistent(s) && slot in s.free && slot < |s.data|
    ensures Consistent(s.(data := s.data[slot := content])) && View(s.(data := s.data[slot := content])) == View(s)
    ensures Timed(s.(data := s.data[slot := content])) == Timed(s)
  {
    hide HashOk, Owned;
    RewriteKeepsConsistent(s, s.data[slot := content]);
    var s' := s.(data := s.data[slot := content]);
    TimedFilled(s, slot, content);
    ViewIsTimed(s);
    ViewIsTimed(s');
    hide View, Timed, SlotsOk, Balanced;
  }

  lemma TimedFilled(s: Store, slot: nat, content: Slot)
    requires SlotsOk(s) && slot in s.free && slot < |s.data|
    ensures Bounded(s.(data := s.data[slot := content])) && Timed(s.(data := s.data[slot := content])) == Timed(s)
  {
    hide Owned, FreeInRange;
  }

  lemma Registered(s: Store, key: FlowKey, slot: nat, p: nat)
    requires Consistent(s) && key !in s.index && p !in s.keyAt
    requires s.free != [] && slot == s.free[|s.free| - 1]
    ensures var s' := s.(free := s.free[..|s.free| - 1], index := s.index[key := slot], keyAt := s.keyAt[p := key]);
            && Consistent(s') && View(s') == View(s)[key := s.data[slot].packed]
            && Timed(s') == Timed(s)[key := s.data[slot]]
  {
    hide HashOk, SlotsOk, Balanced, View, Timed, Bounded;
    BoundedByConsistency(s);
    var s' := s.(free := s.free[..|s.free| - 1], index := s.index[key := slot], keyAt := s.keyAt[p := key]);
    AddedHashOk(s, key, slot, p);
    AddedSlotsOk(s, s', key, slot);
    HashIgnoresFree(s.(index := s'.index, keyAt := s'.keyAt), s'.free);
    ViewRegistered(s, s', key, slot);
    BalancedRegistered(s, s', key, slot);
  }

  lemma BalancedRegistered(s: Store, s': Store, key: FlowKey, slot: nat)
    requires Balanced(s) && key !in s.index && s'.index == s.index[key := slot]
    requires |s'.free| == |s.free| - 1 && |s'.data| == |s.data|
    ensures Balanced(s')
  {
    assert s'.index.Keys == s.index.Keys + {key};
  }

  lemma ViewRegistered(s: Store, s': Store, key: FlowKey, slot: nat)
    requires Bounded(s) && slot < |s.data| && s'.index == s.index[key := slot] && s'.data == s.data
    ensures Bounded(s') && View(s') == View(s)[key := s.data[slot].packed]
    ensures Timed(s') == Timed(s)[key := s.data[slot]]
  {}

  lemma ViewKeys(s: Store, key: FlowKey)
    requires Bounded(s)
    ensures key in s.index <==> key in View(s)
    ensures key in s.index ==> s.index[key] < |s.data| && View(s)[key] == s.data[s.index[key]].packed
    ensures key in s.index ==> key in Timed(s) && Timed(s)[key] == s.data[s.index[key]]
  {}

  lemma TimedRewritten(s: Store, key: FlowKey, content: Slot)
    requires SlotsOk(s) && key in s.index
    ensures Bounded(s.(data := s.data[s.index[key] := content]))
    ensures Timed(s.(data := s.data[s.index[key] := content])) == Timed(s)[key := content]
  {
    hide Owned, FreeInRange;
  }

  lemma WordsRewritten(m: map<FlowKey, Slot>, key: FlowKey, content: Slot)
    ensures Words(m[key := content]) == Words(m)[key := content.packed]
    ensures key in m && m[key].packed == content.packed ==> Words(m[key := content]) == Words(m)
  {}

  lemma ViewTouched(s: Store, key: FlowKey, now: U64)
    requires SlotsOk(s) && key in s.index
    ensures View(s.(data := s.data[s.index[key] := s.data[s.index[key]].(lastSeen := now)])) == View(s)
    ensures key in Timed(s) && Timed(s.(data := s.data[s.index[key] := s.data[s.index[key]].(lastSeen := now)])) ==
            Timed(s)[key := Timed(s)[key].(lastSeen := now)]
  {
    var content := s.data[s.index[key]].(lastSeen := now);
    TimedRewritten(s, key, content);
    WordsRewritten(Timed(s), key, content);
    ViewIsTimed(s);
    ViewIsTimed(s.(data := s.data[s.index[key] := content]));
    hide SlotsOk, View;
  }

  lemma ViewRewritten(s: Store, key: FlowKey, content: Slot)
    requires SlotsOk(s) && key in s.index
    ensures View(s.(data := s.data[s.index[key] := content])) == View(s)[key := content.packed]
    ensures Timed(s.(data := s.data[s.index[key] := content])) == Timed(s)[key := content]
  {
    TimedRewritten(s, key, content);
    WordsRewritten(Timed(s), key, content);
    ViewIsTimed(s);
    ViewIsTimed(s.(data := s.data[s.index[key] := content]));
    hide SlotsOk, View, Timed;
  }

  lemma HashIgnoresFree(s: Store, free: seq<nat>)
    requires HashOk(s)
    ensures HashOk(s.(free := free))
  {}

  lemma AddedHashOk(s: Store, key: FlowKey, slot: nat, p: nat)
    requires HashOk(s) && key !in s.index && p !in s.keyAt
    ensures HashOk(s.(index := s.index[key := slot], keyAt := s.keyAt[p := key]))
  {
    var s' := s.(index := s.index[key := slot], keyAt := s.keyAt[p := key]);
    forall k | k in s'.index ensures exists q :: q in s'.keyAt && s'.keyAt[q] == k {
      if k == key {
        assert s'.keyAt[p] == k;
      } else {
        var q :| q in s.keyAt && s.keyAt[q] == k;
        assert s'.keyAt[q] == k;
      }
    }
  }

  lemma AddedSlotsOk(s: Store, s': Store, key: FlowKey, slot: nat)
    requires SlotsOk(s) && s.free != [] && slot == s.free[|s.free| - 1] && key !in s.index
    requires s'.index == s.index[key := slot] && s'.free == s.free[..|s.free| - 1] && |s'.data| == |s.data|
    ensures SlotsOk(s')
  {
    var n := |s.free| - 1;
    assert slot in s.free;
    forall i | 0 <= i < |s'.data| ensures i in s'.free || Owned(s', i) {
      if i == slot {
        assert s'.index[key] == i;
      } else if i in s.free {
        var j :| 0 <= j < |s.free| && s.free[j] == i;
        assert s'.free[j] == i;
      } else {
        var k :| k in s.index && s.index[k] == i;
        assert s'.index[k] == i;
      }
    }
    forall x | x in s'.free ensures x in s.free {}
  }

  /** The table is a bounded map: Insert makes `key` map to the new count and action and changes
      nothing else, keeps slots and free list a partition, and reports Full exactly when the key is new and
      there is no free slot or the hash table refuses it. */
  lemma InsertRefinesMap(s: Store, key: FlowKey, count: U64, action: Action, now: U64, place: Option<nat>)
    requires Consistent(s) && ValidPlace(s, place)
    ensures var (s', r) := Inserted(s, key, count, action, now, place);
            && Consistent(s')
            && View(s') == (if r == Ok then View(s)[key := Pack(count, action)] else View(s))
            && Timed(s') == (if r == Ok then Timed(s)[key := Slot(Pack(count, action), now)] else Timed(s))
            && |s'.data| == |s.data|
            && (r == Full <==> key !in View(s) && (s.free == [] || place.None?))
  {
    hide Pack, HashOk, SlotsOk, Balanced, View, Timed, Bounded;
    BoundedByConsistency(s);
    ViewKeys(s, key);
    if key in s.index {
      RewriteKeepsConsistent(s, s.data[s.index[key] := Slot(Pack(count, action), now)]);
      ViewRewritten(s, key, Slot(Pack(count, action), now));
    } else {
      AddedConsistent(s, key, Pack(count, action), now, place);
    }
  }

  /** A hit refreshes the timestamp; a packed word of zero reads as a miss. */
  function LookedUp(s: Store, key: FlowKey, now: U64): (Store, Option<Action>)
    requires Bounded(s)
  {
    if key !in s.index then (s, None)
    else
      var i := s.index[key];
      if s.data[i].packed == 0 then (s, None)
      else (s.(data := s.data[i := s.data[i].(lastSeen := now)]), Some(ActionOf(s.data[i].packed)))
  }

  lemma LookupReadsMap(s: Store, key: FlowKey, now: U64)
    requires Consistent(s)
    ensures var (s', r) := LookedUp(s, key, now);
            && Consistent(s') && View(s') == View(s) && |s'.data| == |s.data|
            && r == (if key in View(s) && View(s)[key] != 0 then Some(ActionOf(View(s)[key])) else None)
            && (r.Some? ==> key in Timed(s) && Timed(s') == Timed(s)[key := Timed(s)[key].(lastSeen := now)])
            && (r.None? ==> s' == s)
  {
    hide HashOk, SlotsOk, Balanced, View, Timed, Bounded;
    BoundedByConsistency(s);
    ViewKeys(s, key);
    if key in s.index {
      var i := s.index[key];
      RewriteKeepsConsistent(s, s.data[i := s.data[i].(lastSeen := now)]);
      ViewTouched(s, key, now);
    }
  }

  /** What a lookup of `key` answers. */
  function Reading(s: Store, key: FlowKey): Option<Action>
    requires Bounded(s)
  {
    if key in s.index && s.data[s.index[key]].packed != 0 then Some(ActionOf(s.data[s.index[key]].packed)) else None
  }

  /** The store after looking up the first `n` keys in turn: only timestamps move. */
  function Refreshed(s: Store, keys: seq<FlowKey>, n: nat, now: U64): (r: Store)
    requires Bounded(s) && n <= |keys|
    ensures Bounded(r) && r == s.(data := r.data) && |r.data| == |s.data|
    ensures forall i :: 0 <= i < |s.data| ==> r.data[i].packed == s.data[i].packed
  {
    if n == 0 then s else LookedUp(Refreshed(s, keys, n - 1, now), keys[n - 1], now).0
  }

  /** Lookups do not disturb one another: after any number of them every key still reads as before, and the last
      one answers what it would have answered first. */
  lemma {:induction false} LookupsCommute(s: Store, keys: seq<FlowKey>, n: nat, now: U64)
    requires Consistent(s) && Bounded(s) && n <= |keys|
    ensures Consistent(Refreshed(s, keys, n, now)) && View(Refreshed(s, keys, n, now)) == View(s)
    ensures forall key :: LookedUp(Refreshed(s, keys, n, now), key, now).1 == Reading(s, key)
  {
    hide Consistent;
    if n > 0 {
      LookupsCommute(s, keys, n - 1, now);
      LookupReadsMap(Refreshed(s, keys, n - 1, now), keys[n - 1], now);
    }
  }

  /** Every flow that was asked for and has a word is used now. */
  ghost function Touched(m: map<FlowKey, Slot>, keys: seq<FlowKey>, n: nat, now: U64): map<FlowKey, Slot>
    requires n <= |keys|
  {
    map k | k in m :: if k in keys[..n] && m[k].packed != 0 then m[k].(lastSeen := now) else m[k]
  }

  lemma TouchedNext(m: map<FlowKey, Slot>, keys: seq<FlowKey>, n: nat, now: U64)
    requires n < |keys|
    ensures var key, t := keys[n], Touched(m, keys, n, now);
            && (key in t <==> key in m) && (key in m ==> t[key].packed == m[key].packed)
            && Touched(m, keys, n + 1, now) ==
               if key in m && m[key].packed != 0 then t[key := t[key].(lastSeen := now)] else t
  {
    assert keys[..n + 1] == keys[..n] + [keys[n]];
  }

  lemma TouchedNone(m: map<FlowKey, Slot>, keys: seq<FlowKey>, now: U64)
    ensures Touched(m, keys, 0, now) == m
  {}

  /** What a burst of lookups leaves of the times of last use: `now` for every key that was asked for and
      answered, the old one for every other. */
  lemma {:induction false} RefreshedTimes(s: Store, keys: seq<FlowKey>, n: nat, now: U64)
    requires Consistent(s) && Bounded(s) && n <= |keys|
    ensures Timed(Refreshed(s, keys, n, now)) == Touched(Timed(s), keys, n, now)
  {
    hide Consistent, Timed, View, LookedUp, Touched;
    TouchedNone(Timed(s), keys, now);
    if n > 0 {
      RefreshedTimes(s, keys, n - 1, now);
      LookupsCommute(s, keys, n - 1, now);
      var r, key := Refreshed(s, keys, n - 1, now), keys[n - 1];
      LookupReadsMap(r, key, now);
      TouchedNext(Timed(s), keys, n - 1, now);
      ViewKeys(r, key);
      ViewKeys(s, key);
      ViewIsTimed(s);
      hide Words;
    }
  }

  /** The free list is popped from the back, the hash table picks positions on its own: an insert keeps
      positions and slots aligned exactly when the two happen to agree. */
  lemma AlignmentIsAccidental(s: Store, key: FlowKey, word: U64, now: U64, p: nat)
    requires Consistent(s) && PositionOwnsSlot(s) && key !in s.index && s.free != [] && ValidPlace(s, Some(p))
    ensures PositionOwnsSlot(Added(s, key, word, now, Some(p)).0) <==> p == s.free[|s.free| - 1]
  {
    var s' := Added(s, key, word, now, Some(p)).0;
    assert p in s'.keyAt && s'.keyAt[p] == key;
    assert forall q :: q in s.keyAt ==> s.keyAt[q] in s.index;
  }

  // ---------------------------------------------------------------- runs

  /** A call on the table; `place` is the hash table's choice should the key be new. */
  datatype Call =
    | Put(key: FlowKey, count: U64, action: Action, now: U64, place: Option<nat>)
    | Get(key: FlowKey, now: U64)

  datatype Reply = PutReply(r: InsertResult) | GetReply(action: Option<Action>)

  function Called(s: Store, c: Call): (Store, Reply)
    requires Bounded(s) && FreeInRange(s)
  {
    match c
    case Put(key, count, action, now, place) =>
      var (s', r) := Inserted(s, key, count, action, now, place); (s', PutReply(r))
    case Get(key, now) =>
      var (s', r) := LookedUp(s, key, now); (s', GetReply(r))
  }

  /** The reference: a map with at most `capacity` keys, each with its word and the time it was last used. A new key is
      refused when the map is full or the hash table has no room for it; an entry of word zero reads as absent. */
  function Abstract(m: map<FlowKey, Slot>, capacity: nat, c: Call): (map<FlowKey, Slot>, Reply) {
    match c
    case Put(key, count, action, now, place) =>
      if key in m || (|m| < capacity && place.Some?)
      then (m[key := Slot(Pack(count, action), now)], PutReply(Ok)) else (m, PutReply(Full))
    case Get(key, now) =>
      if key in m && m[key].packed != 0
      then (m[key := m[key].(lastSeen := now)], GetReply(Some(ActionOf(m[key].packed)))) else (m, GetReply(None))
  }

  ghost predicate ValidCall(s: Store, c: Call) {
    c.Put? ==> ValidPlace(s, c.place)
  }

  /** One call on the table is one call on the reference map. */
  lemma CallRefinesMap(s: Store, c: Call)
    requires Consistent(s) && ValidCall(s, c)
    ensures Bounded(s) && FreeInRange(s)
    ensures var (s', reply) := Called(s, c);
            && Consistent(s') && |s'.data| == |s.data|
            && (Timed(s'), reply) == Abstract(Timed(s), |s.data|, c)
  {
    BoundedByConsistency(s);
    TimedSize(s);
    ViewIsTimed(s);
    hide Pack, HashOk, SlotsOk, Balanced, View, Timed, Inserted, LookedUp;
    match c {
      case Put(key, count, action, now, place) =>
        InsertRefinesMap(s, key, count, action, now, place);
      case Get(key, now) =>
        LookupReadsMap(s, key, now);
    }
  }

  lemma TimedSize(s: Store)
    requires Bounded(s) && Balanced(s)
    ensures |Timed(s)| + |s.free| == |s.data|
  {
    assert Timed(s).Keys == s.index.Keys;
  }

  ghost function Replies(s: Store, calls: seq<Call>): seq<Reply>
    requires Consistent(s)
    decreases |calls|
  {
    BoundedByConsistency(s);
    if calls == [] then []
    else
      var (s', reply) := Called(s, calls[0]);
      if Consistent(s') then [reply] + Replies(s', calls[1..]) else [reply]
  }

  ghost predicate ValidCalls(s: Store, calls: seq<Call>)
    requires Consistent(s)
    decreases |calls|
  {
    BoundedByConsistency(s);
    calls == [] ||
    (&& ValidCall(s, calls[0])
     && var s' := Called(s, calls[0]).0;
     Consistent(s') ==> ValidCalls(s', calls[1..]))
  }

  /** The table after a run. */
  ghost function Left(s: Store, calls: seq<Call>): Store
    requires Consistent(s)
    decreases |calls|
  {
    BoundedByConsistency(s);
    if calls == [] then s
    else
      var s' := Called(s, calls[0]).0;
      if Consistent(s') then Left(s', calls[1..]) else s'
  }

  function AbstractReplies(m: map<FlowKey, Slot>, capacity: nat, calls: seq<Call>): seq<Reply>
    decreases |calls|
  {
    if calls == [] then []
    else [Abstract(m, capacity, calls[0]).1] + AbstractReplies(Abstract(m, capacity, calls[0]).0, capacity, calls[1..])
  }

  function AbstractAfter(m: map<FlowKey, Slot>, capacity: nat, calls: seq<Call>): map<FlowKey, Slot>
    decreases |calls|
  {
    if calls == [] then m else AbstractAfter(Abstract(m, capacity, calls[0]).0, capacity, calls[1..])
  }

  /** Over every run of Insert and Lookup, whatever positions the hash table picks and whatever it
      refuses, the table answers exactly as a map bounded by its capacity, and ends up with the map's words and times of
      last use. */
  lemma {:induction false} RunRefinesMap(s: Store, calls: seq<Call>)
    requires Consistent(s) && ValidCalls(s, calls)
    ensures Bounded(s) && Replies(s, calls) == AbstractReplies(Timed(s), |s.data|, calls)
    ensures Consistent(Left(s, calls)) && Bounded(Left(s, calls))
    ensures Timed(Left(s, calls)) == AbstractAfter(Timed(s), |s.data|, calls)
    decreases |calls|
  {
    BoundedByConsistency(s);
    if calls != [] {
      CallRefinesMap(s, calls[0]);
      hide Consistent, Abstract, Timed;
      RunRefinesMap(Called(s, calls[0]).0, calls[1..]);
    }
  }
}
