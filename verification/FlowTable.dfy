/** The flow table itself: slot array, free list and hash table as mutable state, each operation proved
    against its specification. */
module FlowTable {
  import opened Machine
  import opened Packet
  import opened FlowStore
  import opened FlowPurge

  const CANCEL_CHECK_INTERVAL: nat := 1024

  /** The scan looks at the quit flag before handling slot `i`. */
  predicate Polls(i: nat) {
    (i + 1) % CANCEL_CHECK_INTERVAL == 0
  }

  /** The countdown at slot `i` stands at `n`. */
  ghost predicate Due(i: nat, n: int) {
    1 <= n <= CANCEL_CHECK_INTERVAL && (i + n) % CANCEL_CHECK_INTERVAL == 0
  }

  lemma FirstDue()
    ensures Due(0, CANCEL_CHECK_INTERVAL)
  {}

  lemma NextDue(i: nat, n: int)
    requires Due(i, n)
    ensures n == 1 <==> Polls(i)
    ensures Due(i + 1, if n == 1 then CANCEL_CHECK_INTERVAL else n - 1)
  {}

  /** Among any 1024 consecutive slots exactly one is preceded by a look at the quit flag. */
  lemma PollsOnceIn1024(a: nat)
    ensures exists i :: a <= i < a + 1024 && Polls(i)
    ensures forall i, j :: a <= i < j < a + 1024 ==> !(Polls(i) && Polls(j))
  {
    var i := a + 1023 - a % 1024;
    assert Polls(i);
  }

  lemma PurgeSlotCases(s: Store, i: nat, threshold: U64)
    requires i < |s.data|
    ensures PurgeSlot(s, i, threshold) ==
            if s.data[i].packed != 0 && s.data[i].lastSeen < threshold && i in s.keyAt
            then Store(s.index - {s.keyAt[i]}, s.keyAt - {i}, s.data[i := Slot(0, 0)], s.free + [i]) else s
  {}

  lemma ReadingUnchanged(s: Store, keys: seq<FlowKey>, n: nat, now: U64)
    requires Bounded(s) && n <= |keys|
    ensures Bounded(Refreshed(s, keys, n, now))
    ensures forall key :: Reading(Refreshed(s, keys, n, now), key) == Reading(s, key)
  {
    hide ActionOf;
  }

  lemma {:induction false} RefreshedConcat(s: Store, keys: seq<FlowKey>, a: nat, n: nat, now: U64)
    requires Bounded(s) && a + n <= |keys|
    ensures Bounded(Refreshed(s, keys, a, now))
    ensures Refreshed(Refreshed(s, keys, a, now), keys[a..a + n], n, now) == Refreshed(s, keys, a + n, now)
  {
    hide LookedUp;
    if n > 0 {
      RefreshedConcat(s, keys, a, n - 1, now);
      var r := Refreshed(s, keys, a, now);
      RefreshedPrefix(r, keys[a..a + n], keys[a..a + n - 1], n - 1, now);
    }
  }

  lemma {:induction false} RefreshedPrefix(s: Store, a: seq<FlowKey>, b: seq<FlowKey>, n: nat, now: U64)
    requires Bounded(s) && n <= |a| && n <= |b| && a[..n] == b[..n]
    ensures Refreshed(s, a, n, now) == Refreshed(s, b, n, now)
  {
    if n > 0 {
      assert a[n - 1] == a[..n][n - 1] && b[n - 1] == b[..n][n - 1];
      assert a[..n - 1] == a[..n][..n - 1] && b[..n - 1] == b[..n][..n - 1];
      RefreshedPrefix(s, a, b, n - 1, now);
    }
  }

  lemma SlotOf(s: Store, key: FlowKey)
    requires Bounded(s) && key in s.index
    ensures s.index[key] < |s.data|
  {}

  lemma LastFree(s: Store)
    requires FreeInRange(s) && s.free != []
    ensures s.free[|s.free| - 1] < |s.data|
  {}

  class FlowTable {
    const capacity: nat
    /** Whether `rte_hash_create` succeeded. */
    const created: bool
    var index: map<FlowKey, nat>
    var keyAt: map<nat, FlowKey>
    var data: array<Slot>
    var free: seq<nat>
    var overflow: nat

    ghost function Contents(): Store
      reads this, data
    {
      Store(index, keyAt, data[..], free)
    }

    ghost predicate Valid()
      reads this, data
    {
      data.Length == capacity && Consistent(Contents()) && Bounded(Contents()) && FreeInRange(Contents())
    }

    constructor (maxConcurrentFlows: nat, created: bool)
      ensures Valid() && fresh(data) && capacity == maxConcurrentFlows && this.created == created
      ensures Contents() == Fresh(maxConcurrentFlows) && overflow == 0
    {
      capacity := maxConcurrentFlows;
      this.created := created;
      index, keyAt, overflow := map[], map[], 0;
      data := new Slot[maxConcurrentFlows](_ => Slot(0, 0));
      free := [];
      new;
      var i := 0;
      while i < maxConcurrentFlows
        invariant 0 <= i <= maxConcurrentFlows
        invariant free == seq(i, j => j)
        modifies this`free
      {
        free := free + [i];
        i := i + 1;
      }
      assert Contents() == Fresh(maxConcurrentFlows);
      FreshConsistent(maxConcurrentFlows);
      Ranges(Contents());
    }

    method Lookup(key: FlowKey, now: U64) returns (r: Option<Action>)
      requires Valid()
      modifies data
      ensures Valid()
      ensures if created then (Contents(), r) == LookedUp(old(Contents()), key, now)
              else Contents() == old(Contents()) && r == None
    {
      hide Consistent, Bounded, FreeInRange, View, ActionOf;
      if !created || key !in index {
        return None;
      }
      SlotOf(Contents(), key);
      LookupReadsMap(Contents(), key, now);
      var i := index[key];
      var packed := data[i].packed;
      if packed == 0 {
        return None;
      }
      ghost var touched := Contents().(data := Contents().data[i := Contents().data[i].(lastSeen := now)]);
      Ranges(touched);
      data[i] := data[i].(lastSeen := now);
      assert Contents() == touched;
      r := Some(ActionOf(packed));
    }

    /** Look up the keys of one chunk at once, from position `start`. At most 64 are looked at; a miss leaves its result
        as it was. */
    method LookupBulk(keys: seq<FlowKey>, start: nat, count: nat, now: U64,
                      results: array<Option<Action>>) returns (ghost n: nat)
      requires Valid() && start + count <= |keys| && |keys| <= results.Length
      modifies data, results
      ensures Valid() && n == (if created then Min(count, BULK_MAX) else count)
      ensures Contents() == if created
              then Refreshed(old(Contents()), keys[start..start + n], n, now) else old(Contents())
      ensures forall i :: 0 <= i < results.Length ==>
                results[i] == if start <= i < start + n && !created then None
                              else if start <= i < start + n && Reading(old(Contents()), keys[i]).Some?
                                   then Reading(old(Contents()), keys[i])
                              else old(results[i])
    {
      hide Consistent, Bounded, FreeInRange, View, ActionOf;
      ghost var before := Contents();
      if !created {
        n := count;
        var i := 0;
        while i < count
          invariant 0 <= i <= count && Contents() == before && Valid()
          invariant forall j :: 0 <= j < results.Length ==>
                    results[j] == if start <= j < start + i then None else old(results[j])
        {
          results[start + i] := None;
          i := i + 1;
        }
        return;
      }
      var size := Min(count, BULK_MAX);
      n := size;
      ghost var chunk := keys[start..start + n];
      var i := 0;
      while i < size
        invariant 0 <= i <= size && Valid() && Contents() == Refreshed(before, chunk, i, now)
        invariant forall j :: 0 <= j < results.Length ==>
                    results[j] == if start <= j < start + i && Reading(before, keys[j]).Some?
                      then Reading(before, keys[j]) else old(results[j])
      {
        assert chunk[i] == keys[start + i];
        LookupsCommute(before, chunk, i, now);
        var answer := Lookup(keys[start + i], now);
        if answer.Some? {
          results[start + i] := answer;
        }
        i := i + 1;
      }
    }

    /** The burst's lookups, in chunks of 64: every key is answered as if it were looked up alone and first. */
    method BulkFlowLookup(keys: seq<FlowKey>, now: U64, results: array<Option<Action>>)
      requires Valid() && |keys| <= results.Length
      requires forall i :: 0 <= i < results.Length ==> results[i] == None
      modifies data, results
      ensures Valid()
      ensures Contents() == if created then Refreshed(old(Contents()), keys, |keys|, now) else old(Contents())
      ensures forall i :: 0 <= i < results.Length ==>
                results[i] == if i < |keys| && created then Reading(old(Contents()), keys[i]) else None
    {
      hide Consistent, Bounded, FreeInRange, View, ActionOf;
      ghost var before := Contents();
      var start := 0;
      while start < |keys|
        invariant 0 <= start && Valid()
        invariant Contents() == if created then Refreshed(before, keys, Min(start, |keys|), now) else before
        invariant forall i :: 0 <= i < results.Length ==>
                    results[i] == if i < Min(start, |keys|) && created then Reading(before, keys[i]) else None
      {
        ghost var current := Contents();
        var count := Min(BULK_MAX, |keys| - start);
        ghost var n := LookupBulk(keys, start, count, now, results);
        if created {
          ReadingUnchanged(before, keys, start, now);
          RefreshedConcat(before, keys, start, n, now);
        }
        start := start + BULK_MAX;
      }
    }

    method Insert(key: FlowKey, count: U64, action: Action, now: U64, place: Option<nat>) returns (r: InsertResult)
      requires Valid() && ValidPlace(Contents(), place)
      modifies this, data
      ensures Valid() && data == old(data)
      ensures if created then (Contents(), r) == Inserted(old(Contents()), key, count, action, now, place)
              else Contents() == old(Contents()) && r == Full
      ensures overflow == old(overflow) + if r == Full then 1 else 0
    {
      hide Consistent, Bounded, FreeInRange, View, ValidPlace, Pack, Added;
      if !created {
        overflow := overflow + 1;
        return Full;
      }
      if key in index {
        SlotOf(Contents(), key);
        InsertRefinesMap(Contents(), key, count, action, now, place);
        var i := index[key];
        ghost var rewritten := Contents().(data := Contents().data[i := Slot(Pack(count, action), now)]);
        Ranges(rewritten);
        data[i] := Slot(Pack(count, action), now);
        assert Contents() == rewritten;
        return Ok;
      }
      r := AddKey(key, Pack(count, action), now, place);
      if r == Full {
        overflow := overflow + 1;
      }
    }

    /** The miss path shared by `Insert` and `InsertRaw`: pop, fill, register, or push back. */
    method AddKey(key: FlowKey, word: U64, now: U64, place: Option<nat>) returns (r: InsertResult)
      requires Valid() && (free != [] ==> ValidPlace(Contents(), place)) && key !in index
      modifies this, data
      ensures Valid() && data == old(data) && overflow == old(overflow)
      ensures (Contents(), r) == Added(old(Contents()), key, word, now, place)
    {
      hide Consistent, Bounded, FreeInRange, View, ValidPlace;
      ghost var after := Added(Contents(), key, word, now, place).0;
      AddedConsistent(Contents(), key, word, now, place);
      Ranges(after);
      if free == [] {
        return Full;
      }
      LastFree(Contents());
      var slot := free[|free| - 1];
      free := free[..|free| - 1];
      data[slot] := Slot(word, now);
      if place.None? {
        free := free + [slot];
        assert free == old(free);
        assert Contents() == after;
        return Full;
      }
      index := index[key := slot];
      keyAt := keyAt[place.value := key];
      assert Contents() == after;
      r := Ok;
    }

    /** One turn of the scan; freed slots are collected and returned to the free list at the end. */
    method PurgeOne(i: nat, threshold: U64, expired: seq<nat>) returns (expired': seq<nat>)
      requires i < data.Length
      modifies this`index, this`keyAt, data
      ensures Contents().(free := free + expired') == PurgeSlot(old(Contents()).(free := free + expired), i, threshold)
    {
      hide PurgeSlot;
      ghost var current := Contents().(free := free + expired);
      PurgeSlotCases(current, i, threshold);
      expired' := expired;
      var slot := data[i];
      if slot.packed != 0 && slot.lastSeen < threshold && i in keyAt {
        index := index - {keyAt[i]};
        keyAt := keyAt - {i};
        data[i] := Slot(0, 0);
        expired' := expired + [i];
        assert free + expired' == current.free + [i];
        assert data[..] == current.data[i := Slot(0, 0)];
      }
    }

    /** `quit(i)` is what the scan reads when it polls the quit flag before slot `i`. The scan does not
        require anything of positions and slots; whether it leaves a sound table depends on them. */
    method PurgeExpired(now: U64, ttl: U64, quit: nat -> bool) returns (ghost scanned: nat)
      requires Valid()
      modifies this, data
      ensures data == old(data) && data.Length == capacity
      ensures !created || now <= ttl ==> scanned == 0 && Valid() && Contents() == old(Contents())
      ensures created && now > ttl ==>
                && scanned <= capacity
                && (scanned < capacity ==> Polls(scanned) && quit(scanned))
                && (forall i :: 0 <= i < scanned && Polls(i) ==> !quit(i))
                && Contents() == PurgeUpTo(old(Contents()), now - ttl, scanned)
                && (Valid() <==> ClosedUnder(old(Contents()), Cleared(old(Contents()), now - ttl, scanned)))
    {
      hide Consistent, Bounded, FreeInRange, PurgeSlot, Cleared, ClosedUnder, Polls, Due;
      FirstDue();
      scanned := 0;
      if !created || now <= ttl {
        return;
      }
      var threshold := now - ttl;
      ghost var before := Contents();
      var expired: seq<nat> := [];
      var untilCancel := CANCEL_CHECK_INTERVAL;
      var i := 0;
      while i < capacity
        invariant 0 <= i <= capacity && data.Length == capacity && data == old(data)
        invariant Due(i, untilCancel)
        invariant Contents().(free := free + expired) == PurgeUpTo(before, threshold, i)
        invariant forall j :: 0 <= j < i && Polls(j) ==> !quit(j)
      {
        NextDue(i, untilCancel);
        untilCancel := untilCancel - 1;
        if untilCancel == 0 {
          if quit(i) {
            break;
          }
          untilCancel := CANCEL_CHECK_INTERVAL;
        }
        expired := PurgeOne(i, threshold, expired);
        i := i + 1;
      }
      scanned := i;
      free := free + expired;
      PurgeSoundIff(before, threshold, i);
      if Consistent(Contents()) {
        Ranges(Contents());
      }
    }
  }

  /** Resize: copy the visible flows of `source` into a new table, as many as fit. */
  method Migrate(source: FlowTable, target: FlowTable, now: U64, place: nat -> Option<nat>)
    requires source.Valid() && target.Valid() && source != target && source.data != target.data
    requires source.created && target.created && target.index == map[]
    requires Accepting(source.Contents(), target.Contents(), 0, now, place)
    modifies target, target.data
    ensures target.Valid() && source.Contents() == old(source.Contents()) && target.data == old(target.data)
    ensures target.Contents() == Migrated(source.Contents(), old(target.Contents()), 0, now, place)
    ensures View(target.Contents()) == FirstFlows(source.Contents(), 0, target.capacity)
  {
    hide Consistent, Bounded, FreeInRange, Copying, Accepting, Added, Repacked, View, FirstFlows, ValidPlace;
    ghost var s, t := source.Contents(), target.Contents();
    MigrationStarts(s, t, now, place);
    MigrationKeepsFirst(s, t, 0, now, place);
    EmptyView(t);
    var i := 0;
    while i < source.capacity
      invariant 0 <= i <= source.capacity && target.Valid() && target.data == old(target.data)
      invariant source.Contents() == s && source.data.Length == source.capacity
      invariant Copying(s, target.Contents(), i, now, place)
      invariant Migrated(s, target.Contents(), i, now, place) == Migrated(s, t, 0, now, place)
    {
      MigrateSlot(s, target.Contents(), i, now, place);
      var packed := source.data[i].packed;
      if packed != 0 && i in source.keyAt {
        assert Repacked(s, i) == Pack(CountOf(packed), ActionOf(packed)) by { RepackedIs(s, i); }
        var _ := target.AddKey(source.keyAt[i], Pack(CountOf(packed), ActionOf(packed)), now, place(i));
      }
      i := i + 1;
    }
  }

  lemma RepackedIs(s: Store, i: nat)
    requires i < |s.data|
    ensures Repacked(s, i) == Pack(CountOf(s.data[i].packed), ActionOf(s.data[i].packed))
  {}
}
