/** Expiry and resize of the flow table: what a purge removes, when it is sound, how an interrupted
    purge resumes, and what a migration to a larger table keeps. */
module FlowPurge {
  import opened Machine
  import opened Packet
  import opened FlowStore

  // ---------------------------------------------------------------- purge

  predicate Stale(s: Store, i: nat, threshold: U64)
    requires i < |s.data|
  {
    s.data[i].packed != 0 && s.data[i].lastSeen < threshold
  }

  /** One turn of the scan: a stale slot `i` is cleared and freed together with whatever key the hash
      table has at position `i`. */
  function PurgeSlot(s: Store, i: nat, threshold: U64): Store
    requires i < |s.data|
  {
    if !Stale(s, i, threshold) || i !in s.keyAt then s
    else Store(s.index - {s.keyAt[i]}, s.keyAt - {i}, s.data[i := Slot(0, 0)], s.free + [i])
  }

  /** The scan over the first `n` slots. */
  function PurgeUpTo(s: Store, threshold: U64, n: nat): (r: Store)
    requires n <= |s.data|
    ensures |r.data| == |s.data|
  {
    if n == 0 then s else PurgeSlot(PurgeUpTo(s, threshold, n - 1), n - 1, threshold)
  }

  /** Slots below `n` that the scan clears. */
  function Cleared(s: Store, threshold: U64, n: nat): set<nat>
    requires n <= |s.data|
  {
    set i | i in s.keyAt && i < n && Stale(s, i, threshold)
  }

  function KeysAt(s: Store, positions: set<nat>): set<FlowKey> {
    set p | p in positions && p in s.keyAt :: s.keyAt[p]
  }

  /** The scan in closed form. */
  ghost predicate PurgedBy(s: Store, d: set<nat>, r: Store) {
    && |r.data| == |s.data|
    && r.index == s.index - KeysAt(s, d)
    && r.keyAt == s.keyAt - d
    && (forall i :: 0 <= i < |s.data| ==> r.data[i] == if i in d then Slot(0, 0) else s.data[i])
    && multiset(r.free) == multiset(s.free) + multiset(d)
  }

  lemma ClearedNext(s: Store, threshold: U64, i: nat)
    requires i < |s.data|
    ensures i !in Cleared(s, threshold, i)
    ensures Cleared(s, threshold, i + 1) ==
            Cleared(s, threshold, i) + if i in s.keyAt && Stale(s, i, threshold) then {i} else {}
  {}

  lemma PurgeNothing(s: Store)
    ensures PurgedBy(s, {}, s)
  {
    assert KeysAt(s, {}) == {};
  }

  lemma {:induction false} PurgeInClosedForm(s: Store, threshold: U64, n: nat)
    requires n <= |s.data|
    ensures PurgedBy(s, Cleared(s, threshold, n), PurgeUpTo(s, threshold, n))
  {
    hide PurgedBy, PurgeSlot, Stale;
    if n == 0 {
      assert Cleared(s, threshold, 0) == {};
      PurgeNothing(s);
    } else {
      hide Cleared;
      PurgeInClosedForm(s, threshold, n - 1);
      ClearedNext(s, threshold, n - 1);
      var d, r := Cleared(s, threshold, n - 1), PurgeUpTo(s, threshold, n - 1);
      if n - 1 in s.keyAt && Stale(s, n - 1, threshold) {
        PurgeOneMore(s, d, r, n - 1, threshold);
      } else {
        PurgeNoMore(s, d, r, n - 1, threshold);
        assert d + {} == d;
      }
    }
  }

  lemma PurgeNoMore(s: Store, d: set<nat>, r: Store, i: nat, threshold: U64)
    requires PurgedBy(s, d, r) && i < |s.data| && i !in d && !(i in s.keyAt && Stale(s, i, threshold))
    ensures |r.data| == |s.data| && PurgeSlot(r, i, threshold) == r
  {}

  lemma PurgeOneMore(s: Store, d: set<nat>, r: Store, i: nat, threshold: U64)
    requires PurgedBy(s, d, r) && i < |s.data| && i !in d && Stale(s, i, threshold) && i in s.keyAt
    ensures |r.data| == |s.data| && PurgedBy(s, d + {i}, PurgeSlot(r, i, threshold))
  {
    assert r.keyAt[i] == s.keyAt[i];
    assert KeysAt(s, d + {i}) == KeysAt(s, d) + {s.keyAt[i]};
    assert s.index - KeysAt(s, d) - {s.keyAt[i]} == s.index - KeysAt(s, d + {i});
    assert s.keyAt - d - {i} == s.keyAt - (d + {i});
  }

  /** A purge that is interrupted and later followed by a complete one leaves exactly what the complete
      one alone would have left (the free list up to order). */
  lemma InterruptedPurgeResumes(s: Store, early: U64, late: U64, n: nat)
    requires n <= |s.data| && early <= late
    ensures var once := PurgeUpTo(s, late, |s.data|);
            var twice := PurgeUpTo(PurgeUpTo(s, early, n), late, |s.data|);
            && twice.index == once.index && twice.keyAt == once.keyAt && twice.data == once.data
            && multiset(twice.free) == multiset(once.free)
  {
    hide PurgeUpTo, PurgedBy, Cleared;
    var part := PurgeUpTo(s, early, n);
    PurgeInClosedForm(s, early, n);
    PurgeInClosedForm(s, late, |s.data|);
    PurgeInClosedForm(part, late, |s.data|);
    ClearedSplits(s, part, early, late, n);
    PurgesCompose(s, Cleared(s, early, n), part, Cleared(part, late, |s.data|), PurgeUpTo(part, late, |s.data|));
    PurgesAgree(s, Cleared(s, late, |s.data|), PurgeUpTo(s, late, |s.data|), PurgeUpTo(part, late, |s.data|));
  }

  lemma ClearedSplits(s: Store, part: Store, early: U64, late: U64, n: nat)
    requires n <= |s.data| && early <= late && PurgedBy(s, Cleared(s, early, n), part)
    ensures |part.data| == |s.data|
    ensures Cleared(s, early, n) !! Cleared(part, late, |s.data|)
    ensures Cleared(s, late, |s.data|) == Cleared(s, early, n) + Cleared(part, late, |s.data|)
  {}

  lemma PurgesCompose(s: Store, d1: set<nat>, r1: Store, d2: set<nat>, r2: Store)
    requires PurgedBy(s, d1, r1) && PurgedBy(r1, d2, r2) && d1 !! d2
    ensures PurgedBy(s, d1 + d2, r2)
  {
    assert s.keyAt - d1 - d2 == s.keyAt - (d1 + d2);
    assert KeysAt(s, d1 + d2) == KeysAt(s, d1) + KeysAt(r1, d2);
    assert s.index - KeysAt(s, d1) - KeysAt(r1, d2) == s.index - KeysAt(s, d1 + d2);
  }

  lemma PurgesAgree(s: Store, d: set<nat>, r1: Store, r2: Store)
    requires PurgedBy(s, d, r1) && PurgedBy(s, d, r2)
    ensures r2.index == r1.index && r2.keyAt == r1.keyAt && r2.data == r1.data && multiset(r2.free) == multiset(r1.free)
  {}

  // ---------------------------------------------------------------- soundness

  /** Deleting the key at position `i` together with its slot. */
  lemma ReleaseKeepsConsistent(s: Store, i: nat)
    requires Consistent(s) && i in s.keyAt && i < |s.data| && s.index[s.keyAt[i]] == i
    ensures Consistent(Store(s.index - {s.keyAt[i]}, s.keyAt - {i}, s.data[i := Slot(0, 0)], s.free + [i]))
  {
    var key := s.keyAt[i];
    var r := Store(s.index - {key}, s.keyAt - {i}, s.data[i := Slot(0, 0)], s.free + [i]);
    ReleaseHash(s, r, i);
    ReleaseSlots(s, r, i);
    assert Balanced(r) by {
      assert r.index.Keys == s.index.Keys - {key};
    }
  }

  lemma ReleaseHash(s: Store, r: Store, i: nat)
    requires HashOk(s) && i in s.keyAt && r.index == s.index - {s.keyAt[i]} && r.keyAt == s.keyAt - {i} &&
             |r.data| == |s.data|
    ensures HashOk(r)
  {
    forall k | k in r.index ensures exists p :: p in r.keyAt && r.keyAt[p] == k {
      var p :| p in s.keyAt && s.keyAt[p] == k;
      assert r.keyAt[p] == k;
    }
  }

  lemma ReleaseSlots(s: Store, r: Store, i: nat)
    requires SlotsOk(s) && i in s.keyAt && i < |s.data| && s.keyAt[i] in s.index && s.index[s.keyAt[i]] == i
    requires r.index == s.index - {s.keyAt[i]} && r.free == s.free + [i] && |r.data| == |s.data|
    ensures SlotsOk(r)
  {
    forall j | 0 <= j < |r.data| ensures j in r.free || Owned(r, j) {
      if j != i && j !in s.free {
        var k :| k in s.index && s.index[k] == j;
        assert r.index[k] == j;
      }
    }
  }

  /** Purging one stale slot keeps the table sound exactly when the key at that hash position owns that
      slot. Otherwise it deletes a key whose slot is then lost and frees a slot that is in use. */
  lemma PurgeSlotSoundIff(s: Store, i: nat, threshold: U64)
    requires Consistent(s) && i < |s.data| && Stale(s, i, threshold) && i in s.keyAt
    ensures Consistent(PurgeSlot(s, i, threshold)) <==> s.index[s.keyAt[i]] == i
  {
    var key := s.keyAt[i];
    var r := PurgeSlot(s, i, threshold);
    if s.index[key] == i {
      ReleaseKeepsConsistent(s, i);
    } else {
      var lost := s.index[key];
      assert lost !in s.free && lost < |s.data|;
      forall k | k in r.index ensures r.index[k] != lost {
        assert s.index[k] == r.index[k];
      }
      assert lost !in r.free && !Owned(r, lost);
    }
  }

  lemma {:induction false} ImageSize(d: set<nat>, f: nat -> nat)
    requires forall i, j | i in d && j in d && f(i) == f(j) :: i == j
    ensures |set i | i in d :: f(i)| == |d|
  {
    if d != {} {
      var i :| i in d;
      var rest := d - {i};
      ImageSize(rest, f);
      assert (set j | j in d :: f(j)) == (set j | j in rest :: f(j)) + {f(i)};
    }
  }

  /** An injection of a finite set into itself reaches every element. */
  lemma InjectionIsOnto(d: set<nat>, f: nat -> nat, x: nat)
    requires forall i, j | i in d && j in d && f(i) == f(j) :: i == j
    requires forall i | i in d :: f(i) in d
    requires x in d
    ensures exists i :: i in d && f(i) == x
  {
    var image := set i | i in d :: f(i);
    ImageSize(d, f);
    SameSizeSubset(image, d);
    assert x in image;
  }

  lemma SameSizeSubset(a: set<nat>, b: set<nat>)
    requires a <= b && |a| == |b|
    ensures a == b
  {
    assert |b| == |a| + |b - a| by {
      assert b == a + (b - a);
    }
  }

  /** The slot that belongs to the key at hash position `p`. */
  function SlotAt(s: Store, p: nat): nat {
    if p in s.keyAt && s.keyAt[p] in s.index then s.index[s.keyAt[p]] else p
  }

  /** The keys at the positions `d` own exactly the slots `d` among themselves, in whatever arrangement. */
  ghost predicate ClosedUnder(s: Store, d: set<nat>) {
    forall i | i in d :: SlotAt(s, i) in d
  }

  lemma SlotsInjective(s: Store, d: set<nat>)
    requires HashOk(s) && SlotsOk(s) && forall i | i in d :: i in s.keyAt
    ensures forall i, j | i in d && j in d && SlotAt(s, i) == SlotAt(s, j) :: i == j
  {}

  /** Every slot of a closed set belongs to a key at a position of the set. */
  lemma OwnerInside(s: Store, d: set<nat>, x: nat) returns (i: nat)
    requires HashOk(s) && SlotsOk(s) && (forall i | i in d :: i in s.keyAt) && ClosedUnder(s, d) && x in d
    ensures i in d && i in s.keyAt && s.keyAt[i] in s.index && s.index[s.keyAt[i]] == x
  {
    SlotsInjective(s, d);
    InjectionIsOnto(d, p => SlotAt(s, p), x);
    i :| i in d && SlotAt(s, i) == x;
  }

  lemma ClosedIsSound(s: Store, d: set<nat>, r: Store)
    requires HashOk(s) && SlotsOk(s) && (forall i | i in d :: i in s.keyAt) && PurgedBy(s, d, r) && ClosedUnder(s, d)
    ensures SlotsOk(r)
  {
    FreeAfter(s, d, r);
    forall x | x in d ensures x !in s.free && x < |s.data| {
      var i := OwnerInside(s, d, x);
    }
    forall k | k in r.index ensures r.index[k] !in r.free {
      if r.index[k] in d {
        var i := OwnerInside(s, d, r.index[k]);
      }
    }
    DistinctFree(s, d, r);
    forall j | 0 <= j < |r.free| ensures r.free[j] < |r.data| {
      assert r.free[j] in r.free;
    }
    forall x | 0 <= x < |r.data| ensures x in r.free || Owned(r, x) {
      if x !in s.free {
        var k :| k in s.index && s.index[k] == x;
        if k !in r.index {
          var p :| p in d && p in s.keyAt && s.keyAt[p] == k;
          assert SlotAt(s, p) == x;
        } else {
          assert r.index[k] == x;
        }
      }
    }
  }

  lemma FreeAfter(s: Store, d: set<nat>, r: Store)
    requires PurgedBy(s, d, r)
    ensures forall x :: x in r.free <==> x in s.free || x in d
  {
    forall x ensures x in r.free <==> x in s.free || x in d {
      assert x in r.free <==> x in multiset(r.free);
      assert x in s.free <==> x in multiset(s.free);
    }
  }

  lemma DistinctFree(s: Store, d: set<nat>, r: Store)
    requires PurgedBy(s, d, r) && (forall x | x in d :: x !in s.free)
    requires forall i, j :: 0 <= i < j < |s.free| ==> s.free[i] != s.free[j]
    ensures forall i, j :: 0 <= i < j < |r.free| ==> r.free[i] != r.free[j]
  {
    forall x ensures multiset(r.free)[x] <= 1 {
      AtMostOnce(s.free, x);
      assert multiset(r.free)[x] == multiset(s.free)[x] + multiset(d)[x];
      assert x in d ==> x !in multiset(s.free);
    }
    forall i, j | 0 <= i < j < |r.free| ensures r.free[i] != r.free[j] {
      if r.free[i] == r.free[j] {
        Twice(r.free, i, j);
      }
    }
  }

  lemma AtMostOnce(a: seq<nat>, x: nat)
    requires forall i, j :: 0 <= i < j < |a| ==> a[i] != a[j]
    ensures multiset(a)[x] <= 1
  {
    if i :| 0 <= i < |a| && a[i] == x {
      assert a == a[..i] + [x] + a[i + 1..];
      assert x !in a[..i] && x !in a[i + 1..];
    } else {
      assert x !in a;
    }
  }

  lemma Twice(a: seq<nat>, i: nat, j: nat)
    requires i < j < |a| && a[i] == a[j]
    ensures multiset(a)[a[i]] >= 2
  {
    assert a == a[..i] + [a[i]] + a[i + 1..j] + [a[j]] + a[j + 1..];
  }

  lemma SoundIsClosed(s: Store, d: set<nat>, r: Store)
    requires HashOk(s) && SlotsOk(s) && (forall i | i in d :: i in s.keyAt) && PurgedBy(s, d, r) && SlotsOk(r)
    ensures ClosedUnder(s, d)
  {
    FreeAfter(s, d, r);
    forall i | i in d ensures SlotAt(s, i) in d {
      var k, x := s.keyAt[i], SlotAt(s, i);
      assert k in KeysAt(s, d);
      forall l | l in r.index ensures r.index[l] != x {
        assert s.index[l] == r.index[l];
      }
      assert !Owned(r, x);
      assert x in r.free && x !in s.free;
    }
  }

  lemma PurgeKeepsHash(s: Store, d: set<nat>, r: Store)
    requires HashOk(s) && PurgedBy(s, d, r)
    ensures HashOk(r)
  {
    forall k | k in r.index ensures exists p :: p in r.keyAt && r.keyAt[p] == k {
      var p :| p in s.keyAt && s.keyAt[p] == k;
      assert p !in d;
      assert r.keyAt[p] == k;
    }
  }

  lemma {:induction false} KeysAtSize(s: Store, d: set<nat>)
    requires HashOk(s) && forall i | i in d :: i in s.keyAt
    ensures |KeysAt(s, d)| == |d| && KeysAt(s, d) <= s.index.Keys
  {
    if d == {} {
      assert KeysAt(s, d) == {};
    } else {
      var i :| i in d;
      KeysAtSize(s, d - {i});
      assert KeysAt(s, d) == KeysAt(s, d - {i}) + {s.keyAt[i]};
    }
  }

  lemma PurgeKeepsBalance(s: Store, d: set<nat>, r: Store)
    requires HashOk(s) && Balanced(s) && (forall i | i in d :: i in s.keyAt) && PurgedBy(s, d, r)
    ensures Balanced(r)
  {
    KeysAtSize(s, d);
    assert r.index.Keys == s.index.Keys - KeysAt(s, d);
    assert |multiset(r.free)| == |multiset(s.free)| + |d|;
  }

  /** Exactly when a scan, complete or interrupted, leaves a sound table: the keys at the positions it clears must own
      the slots it clears, in whatever arrangement among themselves. Any other key it deletes loses its slot. */
  lemma PurgeSoundIff(s: Store, threshold: U64, n: nat)
    requires Consistent(s) && n <= |s.data|
    ensures Consistent(PurgeUpTo(s, threshold, n)) <==> ClosedUnder(s, Cleared(s, threshold, n))
  {
    hide HashOk, SlotsOk, Balanced, PurgedBy, PurgeUpTo, ClosedUnder, Stale;
    var d, r := Cleared(s, threshold, n), PurgeUpTo(s, threshold, n);
    PurgeInClosedForm(s, threshold, n);
    PurgeKeepsHash(s, d, r);
    PurgeKeepsBalance(s, d, r);
    if ClosedUnder(s, d) {
      ClosedIsSound(s, d, r);
    }
    if SlotsOk(r) {
      SoundIsClosed(s, d, r);
    }
  }

  /** Aligned tables are a special case. */
  lemma AlignedIsClosed(s: Store, d: set<nat>)
    requires PositionOwnsSlot(s)
    ensures ClosedUnder(s, d)
  {}

  /** The flows that survive a purge of the first `n` slots: all but those stored there and last seen
      before the threshold. */
  ghost function Survivors(s: Store, threshold: U64, n: nat): map<FlowKey, U64>
    requires Bounded(s) && n <= |s.data|
  {
    map k | k in s.index && !(s.index[k] < n && Stale(s, s.index[k], threshold)) :: View(s)[k]
  }

  /** The positions cleared are those of the flows that are stored in scanned slots and stale. */
  ghost predicate Matched(s: Store, threshold: U64, n: nat)
    requires Bounded(s) && n <= |s.data|
  {
    forall p | p in s.keyAt && s.keyAt[p] in s.index ::
      p in Cleared(s, threshold, n) <==> s.index[s.keyAt[p]] < n && Stale(s, s.index[s.keyAt[p]], threshold)
  }

  /** Exactly when a scan removes the stale flows it has passed and no other. */
  lemma PurgeExactIff(s: Store, threshold: U64, n: nat)
    requires Consistent(s) && Bounded(s) && n <= |s.data|
    ensures Bounded(PurgeUpTo(s, threshold, n))
    ensures View(PurgeUpTo(s, threshold, n)) == Survivors(s, threshold, n) <==> Matched(s, threshold, n)
  {
    hide PurgeUpTo, Stale, SlotsOk, Balanced;
    PurgeInClosedForm(s, threshold, n);
    var d, r := Cleared(s, threshold, n), PurgeUpTo(s, threshold, n);
    PurgedKeys(s, d, r);
    if Matched(s, threshold, n) {
      forall k | k in s.index
        ensures k in KeysAt(s, d) <==> s.index[k] < n && Stale(s, s.index[k], threshold)
      {
        var p :| p in s.keyAt && s.keyAt[p] == k;
      }
      ViewOfMatched(s, threshold, n, d, r);
    } else {
      var p :| p in s.keyAt && s.keyAt[p] in s.index
               && !(p in d <==> s.index[s.keyAt[p]] < n && Stale(s, s.index[s.keyAt[p]], threshold));
      var k := s.keyAt[p];
      assert k in KeysAt(s, d) <==> p in d;
      assert (k in View(r)) != (k in Survivors(s, threshold, n));
    }
  }

  lemma PurgedKeys(s: Store, d: set<nat>, r: Store)
    requires PurgedBy(s, d, r) && Bounded(s)
    ensures Bounded(r) && forall k :: k in r.index <==> k in s.index && k !in KeysAt(s, d)
  {}

  lemma ViewOfMatched(s: Store, threshold: U64, n: nat, d: set<nat>, r: Store)
    requires Bounded(s) && n <= |s.data| && d == Cleared(s, threshold, n) && PurgedBy(s, d, r)
    requires forall k | k in s.index :: k in KeysAt(s, d) <==> s.index[k] < n && Stale(s, s.index[k], threshold)
    ensures Bounded(r) && View(r) == Survivors(s, threshold, n)
  {
    hide KeysAt, Stale;
    forall k | k in r.index
      ensures k in s.index && r.index[k] == s.index[k] && r.data[r.index[k]] == s.data[s.index[k]]
    {}
  }

  lemma PurgeKeepsAligned(s: Store, d: set<nat>, r: Store)
    requires HashOk(s) && PositionOwnsSlot(s) && PurgedBy(s, d, r)
    ensures PositionOwnsSlot(r)
  {}

  lemma AlignedIsMatched(s: Store, threshold: U64, n: nat)
    requires Bounded(s) && PositionOwnsSlot(s) && n <= |s.data|
    ensures Matched(s, threshold, n)
  {
    hide Stale;
  }

  /** In particular, with positions aligned a purge removes exactly the stale flows among the scanned slots,
      leaves every other flow as it was, and keeps the table sound and aligned. */
  lemma PurgeRemovesExactlyTheStale(s: Store, threshold: U64, n: nat)
    requires Consistent(s) && PositionOwnsSlot(s) && n <= |s.data|
    ensures Bounded(s) && Consistent(PurgeUpTo(s, threshold, n)) && PositionOwnsSlot(PurgeUpTo(s, threshold, n))
    ensures View(PurgeUpTo(s, threshold, n)) == Survivors(s, threshold, n)
  {
    hide PurgeUpTo, PurgedBy, HashOk, SlotsOk, Balanced, PositionOwnsSlot, View, Survivors, Matched, ClosedUnder,
      Cleared;
    BoundedByConsistency(s);
    AlignedIsClosed(s, Cleared(s, threshold, n));
    AlignedIsMatched(s, threshold, n);
    PurgeInClosedForm(s, threshold, n);
    PurgeKeepsAligned(s, Cleared(s, threshold, n), PurgeUpTo(s, threshold, n));
    PurgeSoundIff(s, threshold, n);
    PurgeExactIff(s, threshold, n);
  }

  // ---------------------------------------------------------------- an aligned table is a cache with expiry

  /** A flow map without the flows that were last used before the threshold. */
  function Unexpired(m: map<FlowKey, Slot>, threshold: U64): map<FlowKey, Slot> {
    map k | k in m && !(m[k].packed != 0 && m[k].lastSeen < threshold) :: m[k]
  }

  /** A complete purge of an aligned table removes exactly the flows last used before the threshold. */
  lemma PurgeExpires(s: Store, threshold: U64)
    requires Consistent(s) && PositionOwnsSlot(s)
    ensures var r := PurgeUpTo(s, threshold, |s.data|);
            && Bounded(s) && Consistent(r) && Bounded(r) && PositionOwnsSlot(r)
            && Timed(r) == Unexpired(Timed(s), threshold)
  {
    var d, r := Cleared(s, threshold, |s.data|), PurgeUpTo(s, threshold, |s.data|);
    PurgeRemovesExactlyTheStale(s, threshold, |s.data|);
    PurgeInClosedForm(s, threshold, |s.data|);
    BoundedByConsistency(s);
    BoundedByConsistency(r);
    hide HashOk, Balanced, SlotsOk, PurgeUpTo, PurgedBy, View, Survivors, Timed, Unexpired, PositionOwnsSlot, Cleared;
    TimedOfPurged(s, threshold, d, r);
  }

  lemma TimedOfPurged(s: Store, threshold: U64, d: set<nat>, r: Store)
    requires HashOk(s) && Bounded(s) && PositionOwnsSlot(s)
    requires d == Cleared(s, threshold, |s.data|) && PurgedBy(s, d, r)
    ensures Bounded(r) && Timed(r) == Unexpired(Timed(s), threshold)
  {
    forall k | k in s.index
      ensures k in KeysAt(s, d) <==> Stale(s, s.index[k], threshold)
      ensures s.index[k] in d <==> k in KeysAt(s, d)
    {
      var p :| p in s.keyAt && s.keyAt[p] == k;
    }
    hide KeysAt, HashOk, Cleared, PositionOwnsSlot;
    forall k | k in r.index
      ensures k in s.index && r.index[k] == s.index[k] && r.data[r.index[k]] == s.data[s.index[k]]
    {}
  }

  /** A flow that was used at or after the threshold survives the purge of an aligned table, with its word. */
  lemma UsedFlowSurvives(s: Store, key: FlowKey, now: U64, threshold: U64)
    requires Consistent(s) && PositionOwnsSlot(s) && Bounded(s) && threshold <= now && LookedUp(s, key, now).1.Some?
    ensures var r := PurgeUpTo(LookedUp(s, key, now).0, threshold, |s.data|);
            Bounded(r) && key in s.index && key in r.index && View(r)[key] == View(s)[key]
  {
    hide PurgeUpTo, HashOk, SlotsOk, Balanced, Timed;
    var s' := LookedUp(s, key, now).0;
    LookupReadsMap(s, key, now);
    ViewKeys(s, key);
    PurgeExpires(s', threshold);
    var r := PurgeUpTo(s', threshold, |s.data|);
    ViewIsTimed(r);
    ViewIsTimed(s');
    hide View;
  }

  /** What happens to a table: calls, and complete purges. */
  datatype Event = Use(call: Call) | Expire(threshold: U64)

  /** The hash table happens to put a new key where its slot is. */
  ghost predicate AlignedCall(s: Store, c: Call) {
    c.Put? && c.place.Some? && s.free != [] ==> c.place.value == s.free[|s.free| - 1]
  }

  ghost function Happens(s: Store, e: Event): Store
    requires Bounded(s) && FreeInRange(s)
  {
    match e
    case Use(c) => Called(s, c).0
    case Expire(threshold) => PurgeUpTo(s, threshold, |s.data|)
  }

  ghost predicate AlignedRun(s: Store, events: seq<Event>)
    decreases |events|
  {
    events == [] ||
    (&& Bounded(s) && FreeInRange(s)
     && (events[0].Use? ==> ValidCall(s, events[0].call) && AlignedCall(s, events[0].call))
     && AlignedRun(Happens(s, events[0]), events[1..]))
  }

  ghost function Outcome(s: Store, events: seq<Event>): Store
    requires AlignedRun(s, events)
    decreases |events|
  {
    if events == [] then s else Outcome(Happens(s, events[0]), events[1..])
  }

  /** The reference: a bounded map whose entries expire. */
  function Expected(m: map<FlowKey, Slot>, capacity: nat, events: seq<Event>): map<FlowKey, Slot>
    decreases |events|
  {
    if events == [] then m
    else
      match events[0]
      case Use(c) => Expected(Abstract(m, capacity, c).0, capacity, events[1..])
      case Expire(threshold) => Expected(Unexpired(m, threshold), capacity, events[1..])
  }

  lemma CallKeepsAligned(s: Store, c: Call)
    requires Consistent(s) && PositionOwnsSlot(s) && ValidCall(s, c) && AlignedCall(s, c)
    ensures Bounded(s) && FreeInRange(s) && PositionOwnsSlot(Called(s, c).0)
  {
    BoundedByConsistency(s);
    if c.Put? && c.key !in s.index && s.free != [] && c.place.Some? {
      AlignmentIsAccidental(s, c.key, Pack(c.count, c.action), c.now, c.place.value);
    }
    hide Pack, SlotsOk, Balanced;
  }

  /** Over any run of inserts, lookups and complete purges in which the hash table keeps new keys at the positions of
      their slots, the table is a bounded map with expiry: a flow is there exactly if it was inserted, not refused, and
      has not been last used before the threshold of any purge since. */
  lemma {:induction false} AlignedTableExpires(s: Store, events: seq<Event>)
    requires Consistent(s) && PositionOwnsSlot(s) && AlignedRun(s, events)
    ensures var r := Outcome(s, events);
            && Bounded(s) && Consistent(r) && Bounded(r) && PositionOwnsSlot(r)
            && Timed(r) == Expected(Timed(s), |s.data|, events)
    decreases |events|
  {
    BoundedByConsistency(s);
    if events != [] {
      hide HashOk, SlotsOk, Balanced, Timed, PositionOwnsSlot, PurgeUpTo, Called, Abstract, Unexpired, AlignedCall,
        ValidCall;
      match events[0] {
        case Use(c) =>
          CallRefinesMap(s, c);
          CallKeepsAligned(s, c);
        case Expire(threshold) =>
          PurgeExpires(s, threshold);
      }
      AlignedTableExpires(Happens(s, events[0]), events[1..]);
    }
  }

  /** A flow at a hash position beyond the slots survives every purge, however old it is. */
  lemma BeyondIsNeverPurged(s: Store, threshold: U64, n: nat, p: nat)
    requires HashOk(s) && n <= |s.data| && p in s.keyAt && p >= |s.data|
    ensures var r := PurgeUpTo(s, threshold, n);
            && p in r.keyAt && r.keyAt[p] == s.keyAt[p]
            && s.keyAt[p] in r.index && r.index[s.keyAt[p]] == s.index[s.keyAt[p]]
  {
    hide PurgeUpTo, Stale;
    PurgeInClosedForm(s, threshold, n);
  }

  /** Two inserts into a fresh table of two slots already misalign it when the hash table hands out
      positions in ascending order: a purge that should remove the old flow removes the recent one,
      keeps the old one, and frees the slot the old one is still using. */
  lemma WrongFlowPurged(aged: FlowKey, recent: FlowKey, word: U64)
    requires aged != recent && word != 0
    ensures var s := Added(Added(Fresh(2), aged, word, 1, Some(0)).0, recent, word, 9, Some(1)).0;
            && |s.data| == 2
            && var r := PurgeUpTo(s, 5, 2);
            recent !in r.index && aged in r.index && r.index[aged] in r.free
  {
    var f := Fresh(2);
    assert f.free == [0, 1];
    var s1 := Added(f, aged, word, 1, Some(0)).0;
    assert s1.free == [0];
    var s := Added(s1, recent, word, 9, Some(1)).0;
    assert s.index[aged] == 1 && s.index[recent] == 0 && s.keyAt == map[0 := aged, 1 := recent] && s.free == [];
    assert !Stale(s, 0, 5) && Stale(s, 1, 5);
    var r1 := PurgeUpTo(s, 5, 1);
    assert PurgeUpTo(s, 5, 0) == s && r1 == PurgeSlot(s, 0, 5) == s;
    assert PurgeUpTo(s, 5, 2) == PurgeSlot(r1, 1, 5);
    assert 1 in PurgeSlot(s, 1, 5).free;
  }

  // ---------------------------------------------------------------- migration on resize

  /** Slot `i` holds a flow the migration can see. */
  predicate Visible(s: Store, i: nat)
    requires i < |s.data|
  {
    s.data[i].packed != 0 && i in s.keyAt
  }

  /** The word a migrated flow gets: count and action read from slot `i` and packed again. */
  function Repacked(s: Store, i: nat): U64
    requires i < |s.data|
  {
    Pack(CountOf(s.data[i].packed), ActionOf(s.data[i].packed))
  }

  /** Copy the visible flows of `s`, from slot `i` on, into `t`; `place(i)` is where the new hash table puts
      the flow of slot `i`. */
  function Migrated(s: Store, t: Store, i: nat, now: U64, place: nat -> Option<nat>): Store
    requires i <= |s.data| && FreeInRange(t)
    decreases |s.data| - i
  {
    if i == |s.data| then t
    else if !Visible(s, i) then Migrated(s, t, i + 1, now, place)
    else Migrated(s, Added(t, s.keyAt[i], Repacked(s, i), now, place(i)).0, i + 1, now, place)
  }

  /** As long as the new table has a free slot, its hash table accepts a flow. */
  ghost predicate Accepting(s: Store, t: Store, i: nat, now: U64, place: nat -> Option<nat>)
    requires i <= |s.data| && FreeInRange(t)
    decreases |s.data| - i
  {
    if i == |s.data| then true
    else if !Visible(s, i) then Accepting(s, t, i + 1, now, place)
    else
      && (t.free != [] ==> place(i).Some? && ValidPlace(t, place(i)))
      && Accepting(s, Added(t, s.keyAt[i], Repacked(s, i), now, place(i)).0, i + 1, now, place)
  }

  /** The first `room` visible flows from slot `i` on, as the migration reads them: the key at position `i`
      with the word of slot `i`. */
  ghost function FirstFlows(s: Store, i: nat, room: nat): map<FlowKey, U64>
    requires i <= |s.data|
    decreases |s.data| - i
  {
    if i == |s.data| || room == 0 then map[]
    else if !Visible(s, i) then FirstFlows(s, i + 1, room)
    else map[s.keyAt[i] := Repacked(s, i)] + FirstFlows(s, i + 1, room - 1)
  }

  /** The new table is sound, accepts what is to come, and does not know it yet. */
  ghost predicate Copying(s: Store, t: Store, i: nat, now: U64, place: nat -> Option<nat>) {
    && HashOk(s) && i <= |s.data|
    && Consistent(t) && FreeInRange(t) && Bounded(t)
    && Accepting(s, t, i, now, place)
    && forall p | p in s.keyAt && p >= i :: s.keyAt[p] !in t.index
  }

  lemma Ranges(s: Store)
    requires Consistent(s)
    ensures Bounded(s) && FreeInRange(s) && |s.index| + |s.free| == |s.data|
  {}

  /** One turn of the migration: a visible flow is added while there is a free slot. */
  lemma MigrateSlot(s: Store, t: Store, i: nat, now: U64, place: nat -> Option<nat>)
    requires Copying(s, t, i, now, place) && i < |s.data|
    ensures !Visible(s, i) ==> Copying(s, t, i + 1, now, place)
    ensures Visible(s, i) ==>
              && s.keyAt[i] !in t.index && (t.free != [] ==> ValidPlace(t, place(i))) && FreeInRange(t) && Bounded(t)
              && var t' := Added(t, s.keyAt[i], Repacked(s, i), now, place(i)).0;
              && Copying(s, t', i + 1, now, place)
              && View(t') == (if t.free != [] then View(t)[s.keyAt[i] := Repacked(s, i)] else View(t))
              && Timed(t') == (if t.free != [] then Timed(t)[s.keyAt[i] := Slot(Repacked(s, i), now)] else Timed(t))
              && |t'.free| == if t.free != [] then |t.free| - 1 else 0
  {
    hide SlotsOk, Balanced, View, Timed, Repacked, ValidPlace, Bounded, FreeInRange;
    if Visible(s, i) && t.free != [] {
      AddedConsistent(t, s.keyAt[i], Repacked(s, i), now, place(i));
      Ranges(Added(t, s.keyAt[i], Repacked(s, i), now, place(i)).0);
    }
  }

  /** Whatever the sizes and the alignment: the new table ends up with what it had plus as many of the visible flows, in
      slot order, as it has free slots. Later ones are dropped. A flow that moves counts as used at that moment. */
  lemma {:induction false} MigrationKeepsFirst(s: Store, t: Store, i: nat, now: U64, place: nat -> Option<nat>)
    requires Copying(s, t, i, now, place) && i <= |s.data| && FreeInRange(t) && Bounded(t)
    ensures var r := Migrated(s, t, i, now, place);
            && Consistent(r) && Bounded(r) && View(r) == View(t) + FirstFlows(s, i, |t.free|)
            && Timed(r) == Timed(t) + Stamped(FirstFlows(s, i, |t.free|), now)
    decreases |s.data| - i
  {
    hide Consistent, HashOk, View, Timed, Stamped, Repacked, ValidPlace, Bounded, FreeInRange, Added, Copying;
    StampedNothing(Timed(t), now);
    CopyingSound(s, t, i, now, place);
    if i < |s.data| {
      MigrateSlot(s, t, i, now, place);
      if Visible(s, i) {
        var t' := Added(t, s.keyAt[i], Repacked(s, i), now, place(i)).0;
        CopyingSound(s, t', i + 1, now, place);
        MigrationKeepsFirst(s, t', i + 1, now, place);
        if t.free != [] {
          MapJoin(View(t), s.keyAt[i], Repacked(s, i), FirstFlows(s, i + 1, |t.free| - 1));
          StampedJoin(Timed(t), s.keyAt[i], Repacked(s, i), FirstFlows(s, i + 1, |t.free| - 1), now);
        }
      } else {
        MigrationKeepsFirst(s, t, i + 1, now, place);
      }
    }
  }

  ghost function Stamped(m: map<FlowKey, U64>, now: U64): map<FlowKey, Slot> {
    map k | k in m :: Slot(m[k], now)
  }

  lemma StampedNothing(v: map<FlowKey, Slot>, now: U64)
    ensures v + Stamped(map[], now) == v
  {}

  lemma StampedJoin(v: map<FlowKey, Slot>, k: FlowKey, word: U64, f: map<FlowKey, U64>, now: U64)
    ensures v[k := Slot(word, now)] + Stamped(f, now) == v + Stamped(map[k := word] + f, now)
  {}

  lemma MapJoin(v: map<FlowKey, U64>, k: FlowKey, word: U64, f: map<FlowKey, U64>)
    ensures v[k := word] + f == v + (map[k := word] + f)
  {}

  lemma CopyingSound(s: Store, t: Store, i: nat, now: U64, place: nat -> Option<nat>)
    requires Copying(s, t, i, now, place)
    ensures Consistent(t) && FreeInRange(t) && Bounded(t) && HashOk(s) && i <= |s.data|
  {}

  /** Keys come from later positions only. */
  lemma {:induction false} FreshKey(s: Store, i: nat, room: nat, key: FlowKey)
    requires HashOk(s) && i <= |s.data| && exists p :: p in s.keyAt && p < i && s.keyAt[p] == key
    ensures key !in FirstFlows(s, i, room)
    decreases |s.data| - i
  {
    hide Repacked;
    if i < |s.data| && room > 0 {
      FreshKey(s, i + 1, if Visible(s, i) then room - 1 else room, key);
    }
  }

  /** Words written by Insert: the four action bits hold an action. */
  ghost predicate ActionBitsOk(s: Store) {
    forall i :: 0 <= i < |s.data| ==> s.data[i].packed % 16 <= 1
  }

  lemma RepackIsIdentity(word: U64)
    requires word % 16 <= 1
    ensures Pack(CountOf(word), ActionOf(word)) == word
  {}

  /** The flows a lookup can find. */
  ghost function Flows(s: Store): map<FlowKey, U64>
    requires Bounded(s)
  {
    map k | k in s.index && s.data[s.index[k]].packed != 0 :: s.data[s.index[k]].packed
  }

  /** What migration reads of key `k`: the word of the slot numbered like the key's position. */
  lemma {:induction false} FirstFlowsRead(s: Store, i: nat, room: nat, p: nat)
    requires HashOk(s) && ActionBitsOk(s) && i <= p < |s.data| && room >= |s.data| - i && p in s.keyAt
    ensures s.keyAt[p] in FirstFlows(s, i, room) <==> s.data[p].packed != 0
    ensures s.data[p].packed != 0 ==> FirstFlows(s, i, room)[s.keyAt[p]] == s.data[p].packed
    decreases p - i
  {
    hide Pack;
    RepackIsIdentity(s.data[i].packed);
    if i < p {
      FirstFlowsRead(s, i + 1, if Visible(s, i) then room - 1 else room, p);
    } else {
      FreshKey(s, i + 1, if Visible(s, i) then room - 1 else room, s.keyAt[p]);
    }
  }

  lemma {:induction false} FirstFlowsKeys(s: Store, i: nat, room: nat, k: FlowKey)
    requires i <= |s.data| && k in FirstFlows(s, i, room)
    ensures exists p :: i <= p < |s.data| && p in s.keyAt && s.keyAt[p] == k
    decreases |s.data| - i
  {
    hide Repacked;
    if !(Visible(s, i) && k == s.keyAt[i]) {
      FirstFlowsKeys(s, i + 1, if Visible(s, i) then room - 1 else room, k);
    }
  }

  /** A flow at a hash position beyond the slots is copied by no migration, however large the new table. */
  lemma BeyondIsNeverMigrated(s: Store, room: nat, p: nat)
    requires HashOk(s) && p in s.keyAt && p >= |s.data|
    ensures s.keyAt[p] !in FirstFlows(s, 0, room)
  {
    hide FirstFlows;
    if s.keyAt[p] in FirstFlows(s, 0, room) {
      FirstFlowsKeys(s, 0, room, s.keyAt[p]);
    }
  }

  /** The word that migration reads for hash position `p`; positions beyond the slots are never read. */
  function WordAt(s: Store, p: nat): U64 {
    if p < |s.data| then s.data[p].packed else 0
  }

  /** Every key's slot holds the word that is read for the key's position. */
  ghost predicate SameWords(s: Store)
    requires Bounded(s)
  {
    forall p | p in s.keyAt && s.keyAt[p] in s.index :: WordAt(s, p) == s.data[s.index[s.keyAt[p]]].packed
  }

  /** A migration into an empty table with enough free slots keeps exactly the flows of the old table, with
      their counts and actions, if and only if every key's word is the one at its position. */
  lemma MigrationExactIff(s: Store, t: Store, now: U64, place: nat -> Option<nat>)
    requires Consistent(s) && Bounded(s) && ActionBitsOk(s)
    requires Consistent(t) && Bounded(t) && FreeInRange(t) && t.index == map[] && |t.data| >= |s.data|
    requires Accepting(s, t, 0, now, place)
    ensures Bounded(Migrated(s, t, 0, now, place))
    ensures View(Migrated(s, t, 0, now, place)) == Flows(s) <==> SameWords(s)
  {
    hide Migrated, Accepting, HashOk, SlotsOk, View, Timed, Stamped, FirstFlows, ActionBitsOk, SameWords, Flows,
      Copying;
    MigrationStarts(s, t, now, place);
    MigrationKeepsFirst(s, t, 0, now, place);
    EmptyView(t);
    FlowsByPosition(s, |t.free|);
    FlowsAgree(s, FirstFlows(s, 0, |t.free|));
  }

  lemma FlowsByPosition(s: Store, room: nat)
    requires HashOk(s) && ActionBitsOk(s) && room >= |s.data|
    ensures ReadByPosition(s, FirstFlows(s, 0, room))
  {
    hide FirstFlows, ActionBitsOk;
    var flows := FirstFlows(s, 0, room);
    forall p | p in s.keyAt
      ensures s.keyAt[p] in flows <==> WordAt(s, p) != 0
      ensures WordAt(s, p) != 0 ==> flows[s.keyAt[p]] == WordAt(s, p)
    {
      if p < |s.data| {
        FirstFlowsRead(s, 0, room, p);
      } else {
        BeyondIsNeverMigrated(s, room, p);
      }
    }
    forall k | k in flows ensures k in s.index {
      FirstFlowsKeys(s, 0, room, k);
    }
  }

  /** `flows` holds, for every key, the word read for its position, unless that word is zero. */
  ghost predicate ReadByPosition(s: Store, flows: map<FlowKey, U64>)
    requires HashOk(s)
  {
    && (forall k | k in flows :: k in s.index)
    && (forall p | p in s.keyAt :: s.keyAt[p] in flows <==> WordAt(s, p) != 0)
    && (forall p | p in s.keyAt && WordAt(s, p) != 0 :: s.keyAt[p] in flows && flows[s.keyAt[p]] == WordAt(s, p))
  }

  lemma FlowsAgree(s: Store, flows: map<FlowKey, U64>)
    requires HashOk(s) && Bounded(s) && ReadByPosition(s, flows)
    ensures flows == Flows(s) <==> SameWords(s)
  {
    hide ReadByPosition, SameWords, HashOk;
    if SameWords(s) {
      forall k | k in s.index
        ensures k in flows <==> k in Flows(s)
        ensures k in flows ==> flows[k] == Flows(s)[k]
      {
        SameWordsRead(s, flows, k);
      }
      assert forall k | k in flows :: k in s.index by { ReadKeys(s, flows); }
    }
    if flows == Flows(s) {
      AgreeingWords(s, flows);
    }
  }

  lemma ReadKeys(s: Store, flows: map<FlowKey, U64>)
    requires HashOk(s) && ReadByPosition(s, flows)
    ensures forall k | k in flows :: k in s.index
  {}

  lemma SameWordsRead(s: Store, flows: map<FlowKey, U64>, k: FlowKey)
    requires HashOk(s) && Bounded(s) && ReadByPosition(s, flows) && SameWords(s) && k in s.index
    ensures k in flows <==> s.data[s.index[k]].packed != 0
    ensures k in flows ==> flows[k] == s.data[s.index[k]].packed
  {
    var p :| p in s.keyAt && s.keyAt[p] == k;
  }

  lemma AgreeingWords(s: Store, flows: map<FlowKey, U64>)
    requires HashOk(s) && Bounded(s) && ReadByPosition(s, flows) && flows == Flows(s)
    ensures SameWords(s)
  {
    forall p | p in s.keyAt && s.keyAt[p] in s.index ensures WordAt(s, p) == s.data[s.index[s.keyAt[p]]].packed {
      assert s.keyAt[p] in flows <==> s.keyAt[p] in Flows(s);
    }
  }

  lemma MigrationStarts(s: Store, t: Store, now: U64, place: nat -> Option<nat>)
    requires Consistent(s) && Consistent(t) && FreeInRange(t) && Bounded(t) && t.index == map[]
    requires Accepting(s, t, 0, now, place)
    ensures Copying(s, t, 0, now, place) && |t.free| == |t.data|
  {
    hide SlotsOk, Accepting;
  }

  lemma EmptyView(t: Store)
    requires Bounded(t) && t.index == map[]
    ensures View(t) == map[]
  {}

  lemma AlignedHasSameWords(s: Store)
    requires Bounded(s) && PositionOwnsSlot(s)
    ensures SameWords(s)
  {}
}
