/** The per-worker hostname cache (include/dpdk/dpi/hostname_cache.hpp): an open-addressed table of 4096
    slots, four probes, generation stamps. */
module HostnameCache {
  import opened Machine

  const SLOTS: nat := 4096
  const MAX_PROBES: nat := 4
  const NO_MATCH: U16 := 0xFFFF

  // ---------------------------------------------------------------- keys

  const FNV_OFFSET_BASIS: U32 := 2166136261
  const FNV_PRIME: int := 16777619

  /** Bit of weight `w` of the exclusive or. */
  function XorBit(a: Byte, b: Byte, w: int): int
    requires w > 0
  {
    if (a / w + b / w) % 2 == 1 then w else 0
  }

  /** Bitwise exclusive or of two bytes. */
  function Xor(a: Byte, b: Byte): int {
    XorBit(a, b, 1) + XorBit(a, b, 2) + XorBit(a, b, 4) + XorBit(a, b, 8) +
    XorBit(a, b, 16) + XorBit(a, b, 32) + XorBit(a, b, 64) + XorBit(a, b, 128)
  }

  /** `hash ^= byte` with a signed `char`: bytes from 0x80 on are sign-extended and flip the
      upper 24 bits as well. */
  function XorByte(h: U32, b: Byte): int {
    256 * (if b < 0x80 then h / 256 else 0xFF_FFFF - h / 256) + Xor(h % 256, b)
  }

  function FnvStep(h: U32, b: Byte): U32 {
    XorByte(h, b) * FNV_PRIME % TWO_32
  }

  /** FNV-1a continued from hash `h`. */
  function Fnv(h: U32, name: Bytes): U32
    decreases |name|
  {
    if name == [] then h else Fnv(FnvStep(h, name[0]), name[1..])
  }

  function Hash32(name: Bytes): U32 {
    Fnv(FNV_OFFSET_BASIS, name)
  }

  lemma {:induction false} FnvConcat(h: U32, a: Bytes, b: Bytes)
    ensures Fnv(h, a + b) == Fnv(Fnv(h, a), b)
    decreases |a|
  {
    hide FnvStep;
    if a == [] {
      assert a + b == b;
    } else {
      assert (a + b)[1..] == a[1..] + b;
      FnvConcat(FnvStep(h, a[0]), a[1..], b);
    }
  }

  method ComputeHash32(name: Bytes) returns (hash: U32)
    ensures hash == Hash32(name)
  {
    hide FnvStep;
    hash := FNV_OFFSET_BASIS;
    for i := 0 to |name|
      invariant hash == Fnv(FNV_OFFSET_BASIS, name[..i])
    {
      FnvConcat(FNV_OFFSET_BASIS, name[..i], [name[i]]);
      assert name[..i + 1] == name[..i] + [name[i]];
      assert Fnv(hash, [name[i]]) == Fnv(FnvStep(hash, name[i]), [name[i]][1..]);
      hash := FnvStep(hash, name[i]);
    }
    assert name[..|name|] == name;
  }

  /** The first twelve bytes of a name, zero-padded: `key32` followed by `key64`. */
  function StoredKey(name: Bytes): Bytes {
    seq(12, i requires 0 <= i < 12 => if i < |name| then name[i] else 0)
  }

  /** The comparison the code makes: none for names shorter than four bytes, otherwise up to
      twelve bytes of the name. */
  predicate KeyMatches(key: Bytes, name: Bytes)
    requires |key| == 12
  {
    |name| < 4 || (key[..4] == name[..4] && (|name| <= 4 || key[4..Min(|name|, 12)] == name[4..Min(|name|, 12)]))
  }

  lemma StoredKeyMatches(name: Bytes)
    ensures KeyMatches(StoredKey(name), name)
  {}

  // ---------------------------------------------------------------- slots

  datatype Entry = Entry(hash: U32, key: Bytes, index: U16, generation: U32)

  const EMPTY_ENTRY := Entry(0, [0, 0, 0, 0, 0, 0, 0, 0, 0, 0, 0, 0], NO_MATCH, 0)

  predicate Shaped(slots: seq<Entry>) {
    |slots| == SLOTS && forall i :: 0 <= i < SLOTS ==> |slots[i].key| == 12
  }

  function Position(hash: U32, probe: nat): nat {
    (hash % SLOTS + probe) % SLOTS
  }

  /** The entry was stored for a name that the cache cannot tell from `name`. */
  predicate Owns(e: Entry, name: Bytes)
    requires |e.key| == 12
  {
    e.hash == Hash32(name) && KeyMatches(e.key, name)
  }

  predicate Hits(e: Entry, name: Bytes, generation: U32)
    requires |e.key| == 12
  {
    e.hash != 0 && Owns(e, name) && e.generation == generation
  }

  /** First probe, from `p` on, that hits; `MAX_PROBES` if none does. */
  function HitProbe(slots: seq<Entry>, name: Bytes, generation: U32, p: nat): (r: nat)
    requires Shaped(slots) && p <= MAX_PROBES
    ensures p <= r <= MAX_PROBES
    ensures r < MAX_PROBES ==> Hits(slots[Position(Hash32(name), r)], name, generation)
    ensures forall q :: p <= q < r ==> !Hits(slots[Position(Hash32(name), q)], name, generation)
    decreases MAX_PROBES - p
  {
    if p == MAX_PROBES || Hits(slots[Position(Hash32(name), p)], name, generation) then p
    else HitProbe(slots, name, generation, p + 1)
  }

  /** The cached filter index, or `NO_MATCH`. */
  function Cached(slots: seq<Entry>, name: Bytes, generation: U32): U16
    requires Shaped(slots)
  {
    if name == [] then NO_MATCH
    else
      var p := HitProbe(slots, name, generation, 0);
      if p == MAX_PROBES then NO_MATCH else slots[Position(Hash32(name), p)].index
  }

  /** First probe, from `p` on, that is empty or already belongs to `name`. */
  function StoreProbe(slots: seq<Entry>, name: Bytes, p: nat): (r: nat)
    requires Shaped(slots) && p <= MAX_PROBES
    ensures p <= r <= MAX_PROBES
    ensures r < MAX_PROBES ==> var e := slots[Position(Hash32(name), r)]; e.hash == 0 || Owns(e, name)
    ensures forall q :: p <= q < r ==> var e := slots[Position(Hash32(name), q)]; e.hash != 0 && !Owns(e, name)
    decreases MAX_PROBES - p
  {
    if p == MAX_PROBES then p
    else
      var e := slots[Position(Hash32(name), p)];
      if e.hash == 0 || Owns(e, name) then p else StoreProbe(slots, name, p + 1)
  }

  /** The slot contents after storing a result in `e`. */
  function Updated(e: Entry, name: Bytes, index: U16, generation: U32): Entry {
    if e.hash == 0 then Entry(Hash32(name), StoredKey(name), index, generation)
    else e.(index := index, generation := generation)
  }

  function Stored(slots: seq<Entry>, name: Bytes, index: U16, generation: U32): (r: seq<Entry>)
    requires Shaped(slots)
    ensures Shaped(r)
  {
    if name == [] then slots
    else
      var p := StoreProbe(slots, name, 0);
      if p == MAX_PROBES then slots
      else
        var i := Position(Hash32(name), p);
        slots[i := Updated(slots[i], name, index, generation)]
  }

  lemma ShapedLength(slots: seq<Entry>)
    requires Shaped(slots)
    ensures |slots| == SLOTS && forall i :: 0 <= i < SLOTS ==> |slots[i].key| == 12
  {}

  class HostnameCache {
    var slots: array<Entry>

    ghost predicate Valid()
      reads this, slots
    {
      Shaped(slots[..])
    }

    constructor ()
      ensures Valid() && fresh(slots)
      ensures forall i :: 0 <= i < SLOTS ==> slots[i] == EMPTY_ENTRY
    {
      slots := new Entry[SLOTS](_ => EMPTY_ENTRY);
    }

    method Lookup(name: Bytes, generation: U32) returns (index: U16)
      requires Valid()
      ensures index == Cached(slots[..], name, generation)
    {
      hide Hash32, KeyMatches, Shaped;
      if name == [] {
        return NO_MATCH;
      }
      ghost var view := slots[..];
      assert slots.Length == SLOTS && |view| == SLOTS by { ShapedLength(view); }
      var hash := ComputeHash32(name);
      var slot := hash % SLOTS;
      var first := slots[slot];
      assert slot == Position(hash, 0) && first == view[slot] && |first.key| == 12 by { ShapedLength(view); }
      if first.hash != 0 && first.hash == hash && first.generation == generation && KeyMatches(first.key, name) {
        return first.index;
      }
      var probe := 1;
      while probe < MAX_PROBES
        invariant 1 <= probe <= MAX_PROBES
        invariant HitProbe(view, name, generation, 0) == HitProbe(view, name, generation, probe)
      {
        var i := (slot + probe) % SLOTS;
        var e := slots[i];
        assert i == Position(hash, probe) && e == view[i] && |e.key| == 12 by { ShapedLength(view); }
        if e.hash != 0 && e.hash == hash && e.generation == generation && KeyMatches(e.key, name) {
          return e.index;
        }
        probe := probe + 1;
      }
      index := NO_MATCH;
    }

    method Insert(name: Bytes, index: U16, generation: U32)
      requires Valid()
      modifies slots
      ensures Valid()
      ensures slots[..] == Stored(old(slots[..]), name, index, generation)
    {
      hide Hash32, KeyMatches, StoredKey, Shaped, Stored, StoreProbe;
      ghost var before := slots[..];
      StoredShaped(before, name, index, generation);
      if name == [] {
        return;
      }
      var hash := ComputeHash32(name);
      var slot := hash % SLOTS;
      var probe := 0;
      while probe < MAX_PROBES
        invariant 0 <= probe <= MAX_PROBES && slots[..] == before
        invariant StoreProbe(before, name, 0) == StoreProbe(before, name, probe)
      {
        StoreTurn(before, name, index, generation, probe);
        var i := (slot + probe) % SLOTS;
        assert i == Position(hash, probe) && slots[i] == before[i];
        if slots[i].hash == 0 {
          slots[i] := Entry(hash, StoredKey(name), index, generation);
          assert slots[..] == before[i := Updated(before[i], name, index, generation)];
          return;
        }
        if slots[i].hash == hash && KeyMatches(slots[i].key, name) {
          slots[i] := slots[i].(index := index, generation := generation);
          assert slots[..] == before[i := Updated(before[i], name, index, generation)];
          return;
        }
        probe := probe + 1;
      }
    }
  }

  /** What storing leaves when nothing is stored, and that the shape stays. */
  lemma StoredShaped(slots: seq<Entry>, name: Bytes, index: U16, generation: U32)
    requires Shaped(slots)
    ensures |slots| == SLOTS && (forall i :: 0 <= i < SLOTS ==> |slots[i].key| == 12)
    ensures Shaped(Stored(slots, name, index, generation))
    ensures name == [] || StoreProbe(slots, name, 0) == MAX_PROBES ==> Stored(slots, name, index, generation) == slots
    ensures StoreProbe(slots, name, MAX_PROBES) == MAX_PROBES
  {
    hide Hash32, StoredKey;
  }

  /** One turn of the search for a slot to store in. */
  lemma StoreTurn(slots: seq<Entry>, name: Bytes, index: U16, generation: U32, probe: nat)
    requires Shaped(slots) && name != [] && probe < MAX_PROBES
    requires StoreProbe(slots, name, 0) == StoreProbe(slots, name, probe)
    ensures var i := Position(Hash32(name), probe);
            && i < |slots| && |slots[i].key| == 12
            && if slots[i].hash == 0 || (slots[i].hash == Hash32(name) && KeyMatches(slots[i].key, name))
               then Stored(slots, name, index, generation) == slots[i := Updated(slots[i], name, index, generation)]
               else StoreProbe(slots, name, 0) == StoreProbe(slots, name, probe + 1)
  {
    hide Hash32, KeyMatches, StoredKey;
  }

  // ---------------------------------------------------------------- what a cache is for

  /** A stored result is found again, unless the window was full or the name hashes to the value
      that marks an empty slot. */
  lemma StoredIsFound(slots: seq<Entry>, name: Bytes, index: U16, generation: U32)
    requires Shaped(slots) && name != []
    ensures StoreProbe(slots, name, 0) < MAX_PROBES && Hash32(name) != 0
            ==> Cached(Stored(slots, name, index, generation), name, generation) == index
    ensures StoreProbe(slots, name, 0) == MAX_PROBES ==> Stored(slots, name, index, generation) == slots
    ensures Hash32(name) == 0 ==> Cached(slots, name, generation) == NO_MATCH
  {
    hide Hash32;
    var p := StoreProbe(slots, name, 0);
    if p < MAX_PROBES && Hash32(name) != 0 {
      var after := Stored(slots, name, index, generation);
      StoredKeyMatches(name);
      hide KeyMatches, StoredKey;
      var h := Hash32(name);
      forall q | 0 <= q < p ensures !Hits(after[Position(h, q)], name, generation) {
        assert Position(h, q) != Position(h, p);
      }
      assert Hits(after[Position(h, p)], name, generation);
    }
  }

  /** The two names end up with the same hash and compared key bytes. */
  predicate Confusable(stored: Bytes, asked: Bytes) {
    Hash32(stored) == Hash32(asked) && KeyMatches(StoredKey(stored), asked)
  }

  /** What the cache can tell apart: the hash, and for names of at least four bytes the first twelve bytes,
      where a stored name that is shorter counts as followed by zeros. */
  lemma ConfusableIff(stored: Bytes, asked: Bytes)
    ensures Confusable(stored, asked) <==>
            && Hash32(stored) == Hash32(asked)
            && (|asked| >= 4 ==>
                forall i :: 0 <= i < 12 && i < |asked| ==> asked[i] == if i < |stored| then stored[i] else 0)
  {
    hide Hash32;
    var key := StoredKey(stored);
    if |asked| >= 4 {
      var n := Min(|asked|, 12);
      assert key[..n] == key[..4] + key[4..n] && asked[..n] == asked[..4] + asked[4..n];
      assert KeyMatches(key, asked) <==> key[..n] == asked[..n];
      assert key[..n] == asked[..n] <==> forall i :: 0 <= i < n ==> key[i] == asked[i] by {
        assert key[..n] == asked[..n] ==> forall i :: 0 <= i < n ==> key[..n][i] == asked[..n][i];
      }
    }
  }

  /** Slot `q` of the name's window holds another name. */
  predicate TakenByOther(slots: seq<Entry>, name: Bytes, q: nat)
    requires Shaped(slots)
  {
    var e := slots[(Hash32(name) % 4096 + q) % 4096];
    e.hash != 0 && !Owns(e, name)
  }

  /** A name is stored, and found again, unless its hash is zero or the four slots from its own one on are all taken by
      other names; then the cache stays as it is. */
  lemma StoredUnlessFourOthers(slots: seq<Entry>, name: Bytes, index: U16, generation: U32)
    requires Shaped(slots) && name != []
    ensures var after := Stored(slots, name, index, generation);
            if forall q :: 0 <= q < 4 ==> TakenByOther(slots, name, q) then after == slots
            else if Hash32(name) == 0 then Cached(after, name, generation) == NO_MATCH
            else Cached(after, name, generation) == index
  {
    hide Hash32, TakenByOther, Stored, Cached, StoreProbe, Shaped;
    StoredIsFound(slots, name, index, generation);
    StoredIsFound(Stored(slots, name, index, generation), name, index, generation);
    WindowTaken(slots, name);
  }

  lemma WindowTaken(slots: seq<Entry>, name: Bytes)
    requires Shaped(slots)
    ensures StoreProbe(slots, name, 0) == MAX_PROBES <==> forall q :: 0 <= q < 4 ==> TakenByOther(slots, name, q)
  {
    hide Hash32, Owns;
    var p := StoreProbe(slots, name, 0);
    assert Position(Hash32(name), p) == (Hash32(name) % 4096 + p) % 4096;
    assert p < MAX_PROBES ==> !TakenByOther(slots, name, p);
    forall q | 0 <= q < 4 && q < p ensures TakenByOther(slots, name, q) {
      assert Position(Hash32(name), q) == (Hash32(name) % 4096 + q) % 4096;
    }
  }

  /** A step computed by hand: `x` is the mixed low byte, `q` the overflow of the product. */
  lemma StepIs(high: nat, low: Byte, b: Byte, x: Byte, q: nat, h': U32)
    requires high < 0x100_0000 && b < 0x80 && Xor(low, b) == x
    requires (256 * high + x) * FNV_PRIME == q * TWO_32 + h'
    ensures FnvStep(256 * high + low, b) == h'
  {
    hide Xor;
    var h: U32 := 256 * high + low;
    assert h / 256 == high && h % 256 == low;
    LowWord(q, h');
  }

  lemma LowWord(q: nat, r: U32)
    ensures (q * TWO_32 + r) % TWO_32 == r
  {}

  lemma {:induction false} FnvTrace(name: Bytes, hs: seq<U32>)
    requires |hs| == |name| + 1
    requires forall i :: 0 <= i < |name| ==> FnvStep(hs[i], name[i]) == hs[i + 1]
    ensures Fnv(hs[0], name) == hs[|name|]
    decreases |name|
  {
    hide FnvStep;
    if name != [] {
      assert FnvStep(hs[0], name[0]) == hs[0 + 1];
      forall i | 0 <= i < |name[1..]| ensures FnvStep(hs[1..][i], name[1..][i]) == hs[1..][i + 1] {
        assert FnvStep(hs[i + 1], name[i + 1]) == hs[i + 1 + 1];
      }
      FnvTrace(name[1..], hs[1..]);
    }
  }

  lemma Cgdpso0()
    ensures FnvStep(2166136261, 99) == 3859557458
  {
    hide FnvStep;
    StepIs(8461469, 197, 99, 166, 8461672, 3859557458);
  }

  lemma Cgdpso1()
    ensures FnvStep(3859557458, 103) == 1512675183
  {
    hide FnvStep;
    StepIs(15076396, 82, 103, 53, 15076758, 1512675183);
  }

  lemma Cgdpso2()
    ensures FnvStep(1512675183, 100) == 4202219089
  {
    hide FnvStep;
    StepIs(5908887, 111, 100, 11, 5909028, 4202219089);
  }

  lemma Cgdpso3()
    ensures FnvStep(4202219089, 112) == 1830807027
  {
    hide FnvStep;
    StepIs(16414918, 81, 112, 33, 16415312, 1830807027);
  }

  lemma Cgdpso4()
    ensures FnvStep(1830807027, 115) == 1228294272
  {
    hide FnvStep;
    StepIs(7151589, 243, 115, 128, 7151761, 1228294272);
  }

  lemma Cgdpso5()
    ensures FnvStep(1228294272, 111) == 796184637
  {
    hide FnvStep;
    StepIs(4798024, 128, 111, 239, 4798140, 796184637);
  }

  lemma HashOfCgdpso()
    ensures Hash32([99, 103, 100, 112, 115, 111]) == 796184637
  {
    hide FnvStep;
    Cgdpso0(); Cgdpso1(); Cgdpso2(); Cgdpso3(); Cgdpso4(); Cgdpso5();
    FnvTrace([99, 103, 100, 112, 115, 111],
             [2166136261, 3859557458, 1512675183, 4202219089, 1830807027, 1228294272, 796184637]);
  }

  lemma Ntp0()
    ensures FnvStep(2166136261, 110) == 3943445553
  {
    hide FnvStep;
    StepIs(8461469, 197, 110, 171, 8461672, 3943445553);
  }

  lemma Ntp1()
    ensures FnvStep(3943445553, 116) == 1228294303
  {
    hide FnvStep;
    StepIs(15404084, 49, 116, 69, 15404454, 1228294303);
  }

  lemma Ntp2()
    ensures FnvStep(1228294303, 112) == 796184637
  {
    hide FnvStep;
    StepIs(4798024, 159, 112, 239, 4798140, 796184637);
  }

  lemma HashOfNtp()
    ensures Hash32([110, 116, 112]) == 796184637
  {
    hide FnvStep;
    Ntp0(); Ntp1(); Ntp2();
    FnvTrace([110, 116, 112], [2166136261, 3943445553, 1228294303, 796184637]);
  }

  /** The same for a byte from 0x80 on. */
  lemma HighStepIs(high: nat, low: Byte, b: Byte, x: Byte, q: nat, h': U32)
    requires high < 0x100_0000 && b >= 0x80 && Xor(low, b) == x
    requires (256 * (0xFF_FFFF - high) + x) * FNV_PRIME == q * TWO_32 + h'
    ensures FnvStep(256 * high + low, b) == h'
  {
    hide Xor;
    var h: U32 := 256 * high + low;
    assert h / 256 == high && h % 256 == low;
    LowWord(q, h');
  }

  lemma HighStep()
    ensures FnvStep(2166136261, 0x80) == 83079839
  {
    hide FnvStep;
    HighStepIs(8461469, 197, 0x80, 69, 8315946, 83079839);
  }

  /** A byte from 0x80 on is a negative `char`: the name of the single byte 0x80 hashes as if it were 0xFFFFFF80. */
  lemma HighByteIsSignExtended()
    ensures Hash32([0x80]) == 83079839
  {
    hide FnvStep;
    HighStep();
    FnvTrace([0x80], [2166136261, 83079839]);
  }

  /** Hash and key bytes do not separate all names. A name shorter than four bytes is not compared
      with the stored key at all, and "cgdpso" hashes like "ntp". */
  lemma DistinctNamesCollide()
    ensures Confusable([99, 103, 100, 112, 115, 111], [110, 116, 112])
  {
    HashOfCgdpso();
    HashOfNtp();
    hide Hash32;
  }
}
