/** Purging beside inserts. The main core purges while workers insert: an insert that has found its key's slot
    may write it after the key has lost that slot. */
module FlowEviction {
  import opened Machine
  import opened Packet
  import opened FlowStore
  import opened FlowPurge
  import opened FlowRaces

  /** One turn of a purge, with some threshold, between two steps of the workers. */
  ghost predicate EvictStep(s: System, s': System, x: nat, threshold: U64) {
    x < |s.store.data| && s'.workers == s.workers && s'.store == PurgeSlot(s.store, x, threshold)
  }

  ghost predicate Evicts(s: System, s': System) {
    exists x: nat, threshold: U64 :: EvictStep(s, s', x, threshold)
  }

  ghost predicate AnyStep(s: System, s': System) {
    Step(s, s') || Evicts(s, s')
  }

  ghost predicate IsMixedRun(run: seq<System>) {
    |run| > 0 && forall i :: 0 <= i < |run| - 1 ==> AnyStep(run[i], run[i + 1])
  }

  /** The hash table sends the key to this slot. */
  predicate SlotOfKey(s: Store, key: FlowKey, slot: nat) {
    key in s.index && s.index[key] == slot
  }

  // ---------------------------------------------------------------- when a found slot is the key's own

  /** A purge turn deletes the key: the slot numbered like the key's hash position is stale. */
  ghost predicate EvictsKey(s: System, s': System, key: FlowKey, x: nat, threshold: U64) {
    EvictStep(s, s', x, threshold) && Stale(s.store, x, threshold) && x in s.store.keyAt && s.store.keyAt[x] == key
  }

  /** A worker that missed on the key earlier registers another slot for it. */
  ghost predicate Overtakes(s: System, s': System, key: FlowKey, slot: nat, i: nat) {
    && WorkerStep(s, s', i) && s.workers[i].key == key
    && s.workers[i].at.Filled? && s.workers[i].at.slot != slot && s'.workers[i].at.Registered?
  }

  ghost predicate TakesAway(s: System, s': System, key: FlowKey, slot: nat) {
    || (exists x: nat, threshold: U64 :: EvictsKey(s, s', key, x, threshold))
    || (exists i: nat :: Overtakes(s, s', key, slot, i))
  }

  /** Each step: a key keeps its slot exactly unless a purge turn deletes it or a late registration overtakes it. */
  lemma SlotKeptIff(s: System, s': System, key: FlowKey, slot: nat)
    requires AnyStep(s, s') && SlotOfKey(s.store, key, slot)
    ensures SlotOfKey(s'.store, key, slot) <==> !TakesAway(s, s', key, slot)
  {
    if x: nat, threshold: U64 :| EvictsKey(s, s', key, x, threshold) {
    } else if i: nat :| Overtakes(s, s', key, slot, i) {
    } else if Evicts(s, s') {
      var x: nat, threshold: U64 :| EvictStep(s, s', x, threshold);
      assert !EvictsKey(s, s', key, x, threshold);
    } else {
      var i: nat :| WorkerStep(s, s', i);
      assert !Overtakes(s, s', key, slot, i);
    }
  }

  /** Over any run of inserts and purge turns: a slot found by a lookup is still the key's own for as long as no step
      takes it away, and no longer right after one does. */
  lemma {:induction false} FoundSlotKept(run: seq<System>, a: nat, b: nat, key: FlowKey, slot: nat)
    requires IsMixedRun(run) && a <= b < |run| && SlotOfKey(run[a].store, key, slot)
    requires forall i :: a <= i < b - 1 ==> !TakesAway(run[i], run[i + 1], key, slot)
    ensures SlotOfKey(run[b].store, key, slot) <==> a == b || !TakesAway(run[b - 1], run[b - 1 + 1], key, slot)
    decreases b - a
  {
    hide AnyStep, TakesAway, SlotOfKey;
    if a < b {
      assert AnyStep(run[b - 1], run[b - 1 + 1]);
      FoundSlotKept(run, a, b - 1, key, slot);
      if a < b - 1 {
        assert !TakesAway(run[b - 2], run[b - 2 + 1], key, slot);
      }
      SlotKeptIff(run[b - 1], run[b - 1 + 1], key, slot);
    }
  }

  ghost function Written(s: Store, slot: nat, content: Slot): Store
    requires slot < |s.data|
  {
    s.(data := s.data[slot := content])
  }

  /** The write of an insert that found its key does what an insert should, whatever it writes, exactly when the slot is
      still the key's own. */
  lemma FoundWriteRightIff(s: Store, key: FlowKey, slot: nat)
    requires SlotsOk(s) && Bounded(s) && slot < |s.data|
    ensures (forall content: Slot ::
               Bounded(Written(s, slot, content)) && View(Written(s, slot, content)) == View(s)[key := content.packed])
            <==> SlotOfKey(s, key, slot)
  {
    if SlotOfKey(s, key, slot) {
      forall content: Slot
        ensures Bounded(Written(s, slot, content)) && View(Written(s, slot, content)) == View(s)[key := content.packed]
      {
        ViewRewritten(s, key, content);
      }
    } else {
      var other: U64 := if key in s.index && s.data[s.index[key]].packed == 0 then 1 else 0;
      WrongWrite(s, key, slot, Slot(other, 0));
    }
  }

  lemma WrongWrite(s: Store, key: FlowKey, slot: nat, content: Slot)
    requires Bounded(s) && slot < |s.data| && !SlotOfKey(s, key, slot)
    requires key in s.index ==> content.packed != s.data[s.index[key]].packed
    ensures !(Bounded(Written(s, slot, content)) && View(Written(s, slot, content)) == View(s)[key := content.packed])
  {
    assert View(s)[key := content.packed][key] == content.packed;
  }

  // ---------------------------------------------------------------- and that it can be lost

  lemma FirstMixed(store: Store, w: Worker, v: Worker, p: Phase, q: Phase, store': Store, p': Phase)
    requires Moves(store, w.(at := p), store', p')
    ensures AnyStep(Two(store, w, v, p, q), Two(store', w, v, p', q))
  {
    hide Moves;
    FirstMoves(store, w, v, p, q, store', p');
  }

  lemma SecondMixed(store: Store, w: Worker, v: Worker, p: Phase, q: Phase, store': Store, q': Phase)
    requires Moves(store, v.(at := q), store', q')
    ensures AnyStep(Two(store, w, v, p, q), Two(store', w, v, p, q'))
  {
    hide Moves;
    SecondMoves(store, w, v, p, q, store', q');
  }

  lemma EvictMixed(store: Store, w: Worker, v: Worker, p: Phase, q: Phase, x: nat, threshold: U64)
    requires x < |store.data|
    ensures AnyStep(Two(store, w, v, p, q), Two(PurgeSlot(store, x, threshold), w, v, p, q))
  {
    assert EvictStep(Two(store, w, v, p, q), Two(PurgeSlot(store, x, threshold), w, v, p, q), x, threshold);
  }

  /** From every consistent table, with every stale flow that is found by an insert just before a purge
      reaches it: a second insert of any new key can be given the purged slot, and the first one then
      overwrites the second one's flow. */
  lemma MisdirectedWrite(store: Store, w: Worker, v: Worker, x: nat, threshold: U64) returns (run: seq<System>)
    requires Consistent(store) && x < |store.data| && Stale(store, x, threshold)
    requires x in store.keyAt && store.keyAt[x] == w.key && SlotOfKey(store, w.key, x) && v.key !in store.index
    ensures IsMixedRun(run) && run[0] == Two(store, w, v, Starting, Starting) && AtRest(run[|run| - 1])
    ensures var end := run[|run| - 1].store;
            SlotsOk(end) && SlotOfKey(end, v.key, x) && w.key !in end.index && end.data[x] == w.content
  {
    hide Step, Two, AnyStep, HashOk, SlotsOk, Balanced;
    var s1 := Store(store.index - {w.key}, store.keyAt - {x}, store.data[x := Slot(0, 0)], store.free + [x]);
    var s2 := s1.(free := store.free);
    var s3 := s2.(data := s2.data[x := v.content]);
    var s4 := Pointed(s3, v.key, x, x);
    var s5 := s4.(data := s4.data[x := w.content]);
    assert s1 == PurgeSlot(store, x, threshold);
    assert s1.free[..|s1.free| - 1] == store.free;
    assert s2 == s1.(free := s1.free[..|s1.free| - 1]);
    assert Allotted(s3, v.key, x);
    assert Registers(s3, v.(at := Filled(x)), x, s4, Registered(x));
    FirstMixed(store, w, v, Starting, Starting, store, Found(x));
    EvictMixed(store, w, v, Found(x), Starting, x, threshold);
    SecondMixed(s1, w, v, Found(x), Starting, s1, Missed);
    SecondMixed(s1, w, v, Found(x), Missed, s2, Holding(x));
    SecondMixed(s2, w, v, Found(x), Holding(x), s3, Filled(x));
    SecondMixed(s3, w, v, Found(x), Filled(x), s4, Registered(x));
    FirstMixed(s4, w, v, Found(x), Registered(x), s5, Updated);
    hide Moves, Registers;
    run := [Two(store, w, v, Starting, Starting), Two(store, w, v, Found(x), Starting),
            Two(s1, w, v, Found(x), Starting), Two(s1, w, v, Found(x), Missed),
            Two(s2, w, v, Found(x), Holding(x)), Two(s3, w, v, Found(x), Filled(x)),
            Two(s4, w, v, Found(x), Registered(x)), Two(s5, w, v, Updated, Registered(x))];
    EndsSound(store, s5, w.key, v.key, x);
    BothDone(s5, w, v, x);
  }

  lemma BothDone(store: Store, w: Worker, v: Worker, x: nat)
    ensures AtRest(Two(store, w, v, Updated, Registered(x))) && Two(store, w, v, Updated, Registered(x)).store == store
  {}

  lemma EndsSound(s: Store, r: Store, old': FlowKey, new': FlowKey, x: nat)
    requires SlotsOk(s) && SlotOfKey(s, old', x) && new' !in s.index && x < |s.data|
    requires r.index == (s.index - {old'})[new' := x] && r.free == s.free && |r.data| == |s.data|
    ensures SlotsOk(r)
  {
    forall i | 0 <= i < |r.data| ensures i in r.free || Owned(r, i) {
      if i == x {
        assert r.index[new'] == i;
      } else if i !in s.free {
        var k :| k in s.index && s.index[k] == i;
        assert r.index[k] == i;
      }
    }
  }
}
