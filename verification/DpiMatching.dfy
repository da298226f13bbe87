/** DPI hostname matching behind the per-worker cache: the priority fold of the Hyperscan callback,
    `MatchDpi`, and the generation stamps of the DPI table manager. */
module DpiMatching {
  import opened Machine
  import opened HostnameCache

  /** What a DPI filter reports. */
  datatype Filter = Filter(group: string, title: string, priority: U32)

  /** A compiled table; `scan` is the list of pattern ids Hyperscan reports for a name, in its order. */
  datatype Table = Table(filters: seq<Filter>, scan: Bytes -> seq<nat>, generation: U32)

  const NO_PRIORITY: U32 := 0xFFFF_FFFF

  // ---------------------------------------------------------------- the match callback

  function Priority(filters: seq<Filter>, best: Option<nat>): U32 {
    if best.Some? && best.value < |filters| then filters[best.value].priority else NO_PRIORITY
  }

  /** One callback: keep the reported filter if it beats the best one so far. */
  function Better(filters: seq<Filter>, best: Option<nat>, hit: nat): Option<nat> {
    if hit < |filters| && filters[hit].priority < Priority(filters, best) then Some(hit) else best
  }

  function Fold(filters: seq<Filter>, hits: seq<nat>, best: Option<nat>): Option<nat>
    decreases |hits|
  {
    if hits == [] then best else Fold(filters, hits[1..], Better(filters, best, hits[0]))
  }

  function BestHit(filters: seq<Filter>, hits: seq<nat>): Option<nat> {
    Fold(filters, hits, None)
  }

  lemma {:induction false} FoldIsMinimum(filters: seq<Filter>, hits: seq<nat>, best: Option<nat>)
    requires best.Some? ==> best.value < |filters|
    ensures var r := Fold(filters, hits, best);
            && (r == best || (r.Some? && r.value in hits && r.value < |filters|
                              && filters[r.value].priority < Priority(filters, best)))
            && forall h | h in hits && h < |filters| :: Priority(filters, r) <= filters[h].priority
    decreases |hits|
  {
    if hits != [] {
      var best' := Better(filters, best, hits[0]);
      FoldIsMinimum(filters, hits[1..], best');
      assert hits == [hits[0]] + hits[1..];
    }
  }

  /** Whatever the order of the reports, the chosen filter was reported and none of the reported
      ones has a smaller priority value; nothing is chosen exactly when every reported filter has the
      one priority value that doubles as "none". */
  lemma BestHitIsMinimum(filters: seq<Filter>, hits: seq<nat>)
    ensures var r := BestHit(filters, hits);
            && (r.Some? ==>
                  && r.value in hits && r.value < |filters|
                  && forall h | h in hits && h < |filters| :: filters[r.value].priority <= filters[h].priority)
            && (r == None <==> forall h | h in hits && h < |filters| :: filters[h].priority == NO_PRIORITY)
  {
    FoldIsMinimum(filters, hits, None);
  }

  /** The callback loop. */
  method ScanHits(filters: seq<Filter>, hits: seq<nat>) returns (r: Option<nat>)
    ensures r == BestHit(filters, hits)
  {
    var bestPriority := NO_PRIORITY;
    r := None;
    for i := 0 to |hits|
      invariant bestPriority == Priority(filters, r)
      invariant Fold(filters, hits, None) == Fold(filters, hits[i..], r)
    {
      var id := hits[i];
      assert hits[i..][1..] == hits[i + 1..];
      if id < |filters| {
        var priority := filters[id].priority;
        if priority < bestPriority {
          bestPriority := priority;
          r := Some(id);
        }
      }
    }
  }

  function Match(t: Table, name: Bytes): Option<Filter> {
    if name == [] then None
    else
      var best := BestHit(t.filters, t.scan(name));
      if best.Some? && best.value < |t.filters| then Some(t.filters[best.value]) else None
  }

  // ---------------------------------------------------------------- MatchDpi

  /** The index search on a cache miss. The index is truncated to 16 bits before it is compared; if
      nothing compares equal the last index tried is kept. */
  function SearchIndex(filters: seq<Filter>, f: Filter, i: nat, index: U16): U16
    requires i <= |filters|
    decreases |filters| - i
  {
    if i == |filters| then index
    else if filters[i % TWO_16] == f then i % TWO_16
    else SearchIndex(filters, f, i + 1, i % TWO_16)
  }

  method FindIndex(filters: seq<Filter>, f: Filter) returns (index: U16)
    ensures index == SearchIndex(filters, f, 0, 0)
  {
    index := 0;
    var i := 0;
    while i < |filters|
      invariant i <= |filters|
      invariant SearchIndex(filters, f, i, index) == SearchIndex(filters, f, 0, 0)
    {
      index := i % TWO_16;
      if filters[index] == f {
        break;
      }
      i := i + 1;
    }
  }

  datatype Outcome = Outcome(slots: seq<Entry>, answer: Option<Filter>, hit: bool)

  function Matched(slots: seq<Entry>, t: Table, name: Bytes): Outcome
    requires Shaped(slots)
  {
    var cached := Cached(slots, name, t.generation);
    if cached != NO_MATCH then
      Outcome(slots, if cached < |t.filters| then Some(t.filters[cached]) else None, true)
    else
      match Match(t, name)
      case Some(f) => Outcome(Stored(slots, name, SearchIndex(t.filters, f, 0, 0), t.generation), Some(f), false)
      case None => Outcome(Stored(slots, name, NO_MATCH, t.generation), None, false)
  }

  /** `hostname` and `table` are absent when nothing was extracted or DPI is off. */
  method MatchDpi(cache: HostnameCache, table: Option<Table>, hostname: Option<Bytes>)
    returns (answer: Option<Filter>, ghost hit: bool)
    requires cache.Valid()
    modifies cache.slots
    ensures cache.Valid()
    ensures if table.Some? && hostname.Some?
            then Outcome(cache.slots[..], answer, hit) == Matched(old(cache.slots[..]), table.value, hostname.value)
            else answer == None && cache.slots[..] == old(cache.slots[..])
  {
    hit := false;
    if hostname.None? || table.None? {
      return None, false;
    }
    hide Shaped, Cached, Stored;
    var name, t := hostname.value, table.value;
    var cached := cache.Lookup(name, t.generation);
    if cached != NO_MATCH {
      hit := true;
      return if cached < |t.filters| then Some(t.filters[cached]) else None, true;
    }
    answer := Match(t, name);
    if answer.Some? {
      var index := FindIndex(t.filters, answer.value);
      cache.Insert(name, index, t.generation);
    } else {
      cache.Insert(name, NO_MATCH, t.generation);
    }
  }

  // ---------------------------------------------------------------- indices

  /** Only such names are ever found in the cache. */
  predicate Cacheable(name: Bytes) {
    name != [] && Hash32(name) != 0
  }

  ghost predicate FoundBy16Bits(filters: seq<Filter>, f: Filter) {
    exists i :: 0 <= i < |filters| && i < TWO_16 && filters[i] == f
  }

  /** The index stored for a match names the matching filter, or stands for "no match" by accident. */
  ghost predicate Indexed(t: Table, name: Bytes) {
    Cacheable(name) && Match(t, name).Some? ==>
      FoundBy16Bits(t.filters, Match(t, name).value) || |t.filters| % TWO_16 == 0
  }

  ghost predicate Indexable(t: Table, names: set<Bytes>) {
    forall name | name in names :: Indexed(t, name)
  }

  /** Tables of at most 65536 filters always qualify. */
  lemma SmallTablesIndexable(t: Table, names: set<Bytes>)
    requires |t.filters| <= TWO_16
    ensures Indexable(t, names)
  {}

  lemma {:induction false} SearchFinds(filters: seq<Filter>, f: Filter, i: nat, index: U16, at: nat)
    requires i <= at < |filters| && at < TWO_16 && filters[at] == f
    ensures var r := SearchIndex(filters, f, i, index); r < |filters| && filters[r] == f
    decreases |filters| - i
  {
    if filters[i % TWO_16] != f {
      SearchFinds(filters, f, i + 1, i % TWO_16, at);
    }
  }

  lemma {:induction false} SearchMisses(filters: seq<Filter>, f: Filter, i: nat, index: U16)
    requires i <= |filters| && !FoundBy16Bits(filters, f)
    ensures SearchIndex(filters, f, i, index) == if i == |filters| then index else (|filters| - 1) % TWO_16
    decreases |filters| - i
  {
    if i < |filters| {
      SearchMisses(filters, f, i + 1, i % TWO_16);
    }
  }

  /** The index a miss stores for `name`. */
  function IndexFor(t: Table, name: Bytes): U16 {
    var m := Match(t, name);
    if m.None? then NO_MATCH else SearchIndex(t.filters, m.value, 0, 0)
  }

  /** A cached index stands for the right answer. */
  ghost predicate RightIndex(t: Table, name: Bytes, index: U16) {
    index != NO_MATCH ==> index < |t.filters| && Match(t, name) == Some(t.filters[index])
  }

  lemma SearchRightIff(filters: seq<Filter>, f: Filter)
    requires f in filters
    ensures var r := SearchIndex(filters, f, 0, 0);
            (r != NO_MATCH ==> r < |filters| && filters[r] == f) <==>
              FoundBy16Bits(filters, f) || |filters| % TWO_16 == 0
  {
    if FoundBy16Bits(filters, f) {
      var i :| 0 <= i < |filters| && i < TWO_16 && filters[i] == f;
      SearchFinds(filters, f, 0, 0, i);
    } else {
      SearchMisses(filters, f, 0, 0);
      LastIndex(|filters|);
    }
  }

  lemma LastIndex(n: nat)
    requires n > 0
    ensures (n - 1) % TWO_16 <= n - 1
    ensures (n - 1) % TWO_16 == NO_MATCH <==> n % TWO_16 == 0
  {}

  /** The stored index is right exactly for tables that 16 bits can index. */
  lemma StoredIndexRightIff(t: Table, name: Bytes)
    requires Cacheable(name)
    ensures RightIndex(t, name, IndexFor(t, name)) <==> Indexed(t, name)
  {
    MatchIsAFilter(t, name);
    hide Match, Hash32, SearchIndex, FoundBy16Bits;
    if Match(t, name).Some? {
      SearchRightIff(t.filters, Match(t, name).value);
    }
  }

  lemma MatchIsAFilter(t: Table, name: Bytes)
    ensures Match(t, name).Some? ==> Match(t, name).value in t.filters
  {}

  // ---------------------------------------------------------------- transparency

  /** No two cacheable names of interest are mistaken for each other. */
  ghost predicate Separated(names: set<Bytes>) {
    forall a, b | a in names && b in names && Cacheable(a) && Cacheable(b) && Confusable(a, b) :: a == b
  }

  ghost predicate Describes(e: Entry, name: Bytes) {
    name != [] && e.hash == Hash32(name) && e.key == StoredKey(name)
  }

  /** An entry in use was stored for a name of interest, under a stamp that was given. */
  ghost predicate GoodEntry(e: Entry, names: set<Bytes>, used: set<U32>) {
    e.hash != 0 ==> e.generation in used && exists c :: c in names && Describes(e, c)
  }

  ghost predicate GoodCache(slots: seq<Entry>, names: set<Bytes>, used: set<U32>) {
    Shaped(slots) && forall i :: 0 <= i < SLOTS ==> GoodEntry(slots[i], names, used)
  }

  /** What the cache holds for the names of interest under the stamp of `t` is right. */
  ghost predicate RightCache(slots: seq<Entry>, t: Table, names: set<Bytes>)
    requires Shaped(slots)
  {
    forall n | n in names :: RightIndex(t, n, Cached(slots, n, t.generation))
  }

  /** The slot that a result for `name` goes to is hit by no other name of interest, before or after. */
  lemma OnlyItsOwnName(e: Entry, names: set<Bytes>, used: set<U32>, name: Bytes, other: Bytes, index: U16, g: U32,
                       asked: U32)
    requires |e.key| == 12 && GoodEntry(e, names, used) && Separated(names)
    requires name in names && other in names && other != name && name != [] && other != []
    requires e.hash == 0 || Owns(e, name)
    ensures |Updated(e, name, index, g).key| == 12
    ensures !Hits(e, other, asked) && !Hits(Updated(e, name, index, g), other, asked)
  {
    hide Hash32, KeyMatches, StoredKey;
    if e.hash != 0 {
      var c :| c in names && Describes(e, c);
      assert Confusable(c, name);
      assert Hits(e, other, asked) ==> Confusable(c, other);
    }
    var u := Updated(e, name, index, g);
    assert |u.key| == 12 by { KeySize(name); }
    assert e.hash == 0 && Hits(u, other, asked) ==> Confusable(name, other);
  }

  lemma KeySize(name: Bytes)
    ensures |StoredKey(name)| == 12
  {}

  lemma SameProbe(s: seq<Entry>, s': seq<Entry>, name: Bytes, g: U32)
    requires Shaped(s) && Shaped(s')
    requires forall i :: 0 <= i < SLOTS && s[i] != s'[i] ==> !Hits(s[i], name, g) && !Hits(s'[i], name, g)
    ensures Cached(s, name, g) == Cached(s', name, g)
  {
    hide Hits, Hash32;
    var h := Hash32(name);
    assert forall q :: 0 <= q < MAX_PROBES ==>
      (Hits(s[Position(h, q)], name, g) <==> Hits(s'[Position(h, q)], name, g));
    assert HitProbe(s, name, g, 0) == HitProbe(s', name, g, 0);
  }

  /** Storing a result leaves what is cached for every other name of interest as it was. */
  lemma OthersUnaffected(slots: seq<Entry>, names: set<Bytes>, used: set<U32>, name: Bytes, other: Bytes,
                         index: U16, g: U32, asked: U32)
    requires GoodCache(slots, names, used) && Separated(names) && name in names && other in names && other != name
    ensures Cached(Stored(slots, name, index, g), other, asked) == Cached(slots, other, asked)
  {
    hide Hash32, Separated, GoodEntry, Updated, Hits, Owns;
    var p := StoreProbe(slots, name, 0);
    if name != [] && other != [] && p < MAX_PROBES {
      var i := Position(Hash32(name), p);
      OnlyItsOwnName(slots[i], names, used, name, other, index, g, asked);
      hide StoreProbe;
      SameProbe(slots, Stored(slots, name, index, g), other, asked);
    }
  }

  lemma StoredIsGood(slots: seq<Entry>, names: set<Bytes>, used: set<U32>, name: Bytes, index: U16, g: U32)
    requires GoodCache(slots, names, used) && name in names && g in used
    ensures GoodCache(Stored(slots, name, index, g), names, used)
  {
    hide Hash32, KeyMatches, StoredKey;
    var p := StoreProbe(slots, name, 0);
    if name != [] && p < MAX_PROBES {
      var i := Position(Hash32(name), p);
      var u := Updated(slots[i], name, index, g);
      assert GoodEntry(u, names, used) by {
        if slots[i].hash == 0 {
          assert Describes(u, name);
        } else {
          var c :| c in names && Describes(slots[i], c);
          assert Describes(u, c);
        }
      }
      hide GoodEntry, Updated;
    }
  }

  /** After a miss, what is cached for the name is the new result or still nothing. */
  lemma StoredForItself(slots: seq<Entry>, name: Bytes, index: U16, g: U32)
    requires Shaped(slots) && Cached(slots, name, g) == NO_MATCH
    ensures Cached(Stored(slots, name, index, g), name, g) in {NO_MATCH, index}
    ensures !Cacheable(name) ==> Cached(Stored(slots, name, index, g), name, g) == NO_MATCH
  {
    if name != [] {
      StoredIsFound(slots, name, index, g);
      StoredIsFound(Stored(slots, name, index, g), name, index, g);
    }
  }

  lemma MissStores(slots: seq<Entry>, t: Table, name: Bytes)
    requires Shaped(slots) && Cached(slots, name, t.generation) == NO_MATCH
    ensures Matched(slots, t, name) ==
            Outcome(Stored(slots, name, IndexFor(t, name), t.generation), Match(t, name), false)
  {}

  /** One query: the answer is what the active table says, and the cache stays good and right. */
  lemma QueryIsTransparent(slots: seq<Entry>, t: Table, names: set<Bytes>, used: set<U32>, name: Bytes)
    requires GoodCache(slots, names, used) && RightCache(slots, t, names) && Separated(names) && name in names
    requires t.generation in used && Indexable(t, names)
    ensures var o := Matched(slots, t, name);
            o.answer == Match(t, name) && GoodCache(o.slots, names, used) && RightCache(o.slots, t, names)
  {
    hide Separated, GoodEntry, Cached, Stored, Hash32, Match, IndexFor, Cacheable, Indexed;
    var g := t.generation;
    if Cached(slots, name, g) == NO_MATCH {
      MissStores(slots, t, name);
      hide Matched;
      var index := IndexFor(t, name);
      StoredIsGood(slots, names, used, name, index, g);
      StoredForItself(slots, name, index, g);
      if Cacheable(name) {
        StoredIndexRightIff(t, name);
      }
      forall n | n in names ensures RightIndex(t, n, Cached(Stored(slots, name, index, g), n, g)) {
        if n != name {
          OthersUnaffected(slots, names, used, name, n, index, g, g);
        }
      }
    }
  }

  // ---------------------------------------------------------------- runs of queries and reloads

  datatype Op = Query(name: Bytes) | Swap(table: Option<Table>)

  /** One worker's cache, the active table, and every generation that was ever active. */
  datatype World = World(slots: seq<Entry>, active: Option<Table>, used: set<U32>)

  /** The stamp `Swap` gives a new table. */
  function NextGeneration(active: Option<Table>): U32 {
    if active.None? then 1 else Add32(active.value.generation, 1)
  }

  function Done(w: World, op: Op): World
    requires Shaped(w.slots)
  {
    match op
    case Query(name) => if w.active.None? then w else w.(slots := Matched(w.slots, w.active.value, name).slots)
    case Swap(None) => w.(active := None)
    case Swap(Some(t)) =>
      var g := NextGeneration(w.active);
      w.(active := Some(t.(generation := g)), used := w.used + {g})
  }

  function Answer(w: World, name: Bytes): Option<Filter>
    requires Shaped(w.slots)
  {
    if w.active.None? then None else Matched(w.slots, w.active.value, name).answer
  }

  lemma DoneShaped(w: World, op: Op)
    requires Shaped(w.slots)
    ensures Shaped(Done(w, op).slots)
  {}

  function RunOps(w: World, ops: seq<Op>): (r: World)
    requires Shaped(w.slots)
    ensures Shaped(r.slots)
    decreases |ops|
  {
    DoneShaped(w, if ops == [] then Query([]) else ops[0]);
    if ops == [] then w else RunOps(Done(w, ops[0]), ops[1..])
  }

  ghost predicate GoodWorld(w: World, names: set<Bytes>) {
    && GoodCache(w.slots, names, w.used)
    && (w.active.Some? ==>
          var t := w.active.value;
          t.generation in w.used && Indexable(t, names) && RightCache(w.slots, t, names))
  }

  /** The stamp of the next table: nothing is cached under it for the names of interest. */
  ghost predicate StampIsClear(w: World, names: set<Bytes>)
    requires Shaped(w.slots)
  {
    forall n | n in names :: Cached(w.slots, n, NextGeneration(w.active)) == NO_MATCH
  }

  ghost predicate OrderlyOp(w: World, op: Op, names: set<Bytes>)
    requires Shaped(w.slots)
  {
    match op
    case Query(name) => name in names
    case Swap(None) => true
    case Swap(Some(t)) => Indexable(t, names) && StampIsClear(w, names)
  }

  /** Queries ask about `names`, tables can be indexed, and nothing is cached under a stamp when it is given. */
  ghost predicate Orderly(w: World, ops: seq<Op>, names: set<Bytes>)
    requires Shaped(w.slots)
    decreases |ops|
  {
    DoneShaped(w, if ops == [] then Query([]) else ops[0]);
    ops == [] ||
    (&& OrderlyOp(w, ops[0], names)
     && Orderly(Done(w, ops[0]), ops[1..], names))
  }

  lemma StampIsIgnored(t: Table, g: U32, names: set<Bytes>)
    ensures forall name :: Match(t.(generation := g), name) == Match(t, name)
    ensures Indexable(t, names) ==> Indexable(t.(generation := g), names)
  {
    hide Hash32;
    forall name
      ensures Match(t.(generation := g), name) == Match(t, name)
      ensures Indexed(t, name) ==> Indexed(t.(generation := g), name)
    {}
  }

  lemma MoreStamps(slots: seq<Entry>, names: set<Bytes>, used: set<U32>, g: U32)
    requires GoodCache(slots, names, used)
    ensures GoodCache(slots, names, used + {g})
  {
    hide Describes;
    forall i | 0 <= i < SLOTS ensures GoodEntry(slots[i], names, used + {g}) {
      assert GoodEntry(slots[i], names, used);
    }
  }

  lemma OpIsGood(w: World, op: Op, names: set<Bytes>)
    requires GoodWorld(w, names) && Separated(names) && OrderlyOp(w, op, names)
    ensures GoodWorld(Done(w, op), names)
  {
    hide Match, Indexable, Separated, GoodEntry, Hash32, Cached, Stored;
    match op {
      case Query(n) =>
        if w.active.Some? {
          QueryIsTransparent(w.slots, w.active.value, names, w.used, n);
        }
      case Swap(None) =>
      case Swap(Some(t)) =>
        StampIsIgnored(t, NextGeneration(w.active), names);
        MoreStamps(w.slots, names, w.used, NextGeneration(w.active));
    }
  }

  lemma {:induction false} RunIsGood(w: World, ops: seq<Op>, names: set<Bytes>)
    requires GoodWorld(w, names) && Separated(names) && Orderly(w, ops, names)
    ensures GoodWorld(RunOps(w, ops), names)
    decreases |ops|
  {
    if ops != [] {
      hide Separated, Shaped, Done;
      OpIsGood(w, ops[0], names);
      hide GoodWorld, OrderlyOp;
      RunIsGood(Done(w, ops[0]), ops[1..], names);
    }
  }

  /** Cache transparency over any run of queries, reloads and disablings: as long as nothing is cached
      under a stamp when it is given and the names asked about are not confusable, the next answer is
      what the active table says. */
  lemma CacheIsTransparent(w: World, ops: seq<Op>, names: set<Bytes>, name: Bytes)
    requires GoodWorld(w, names) && Separated(names) && Orderly(w, ops, names) && name in names
    ensures var w' := RunOps(w, ops);
            Answer(w', name) == if w'.active.None? then None else Match(w'.active.value, name)
  {
    hide Match, Indexable, GoodEntry, Separated, Shaped, RightCache;
    RunIsGood(w, ops, names);
    var w' := RunOps(w, ops);
    if w'.active.Some? {
      QueryIsTransparent(w'.slots, w'.active.value, names, w'.used, name);
    }
  }

  // ---------------------------------------------------------------- stamps

  /** A table with room for `index` that matches nothing. */
  function Silent(index: U16, generation: U32): Table {
    Table(seq(index + 1, _ => Filter("", "", 0)), _ => [], generation)
  }

  /** Exactly when a stamp is safe for a name: every table that carries it is answered for rightly if and only if
      nothing is cached under it for that name. */
  lemma StampSafeIff(slots: seq<Entry>, name: Bytes, g: U32)
    requires Shaped(slots)
    ensures (forall t: Table | t.generation == g :: Matched(slots, t, name).answer == Match(t, name))
            <==> Cached(slots, name, g) == NO_MATCH
  {
    hide Cached, Stored;
    var index := Cached(slots, name, g);
    if index != NO_MATCH {
      var t := Silent(index, g);
      assert Match(t, name) == None;
      assert Matched(slots, t, name).answer == Some(t.filters[index]);
    }
  }

  /** After any run of queries, reloads and disablings whatsoever: the next reload is safe, for a set of names and
      every table it could bring, if and only if nothing is cached for them under the stamp it will be given. */
  lemma ReloadSafeIff(w: World, ops: seq<Op>, names: set<Bytes>)
    requires Shaped(w.slots)
    ensures var w' := RunOps(w, ops);
            (forall t: Table, n | n in names :: Answer(Done(w', Swap(Some(t))), n) == Match(t, n))
            <==> StampIsClear(w', names)
  {
    hide Cached, Match, Shaped, Matched;
    var w' := RunOps(w, ops);
    var g := NextGeneration(w'.active);
    forall n | n in names
      ensures (forall t: Table :: Answer(Done(w', Swap(Some(t))), n) == Match(t, n)) <==>
              Cached(w'.slots, n, g) == NO_MATCH
    {
      StampSafeIff(w'.slots, n, g);
      if Cached(w'.slots, n, g) == NO_MATCH {
        forall t: Table ensures Answer(Done(w', Swap(Some(t))), n) == Match(t, n) {
          StampIsIgnored(t, g, names);
        }
      } else {
        var t: Table :| t.generation == g && Matched(w'.slots, t, n).answer != Match(t, n);
        assert t.(generation := g) == t;
        assert Answer(Done(w', Swap(Some(t))), n) != Match(t, n);
      }
    }
  }

  /** A stamp that was never given is clear. */
  lemma NewStampIsClear(w: World, names: set<Bytes>)
    requires GoodCache(w.slots, names, w.used) && NextGeneration(w.active) !in w.used
    ensures StampIsClear(w, names)
  {
    hide Hash32, Describes;
    var g := NextGeneration(w.active);
    forall n | n in names ensures Cached(w.slots, n, g) == NO_MATCH {
      assert forall i :: 0 <= i < SLOTS && GoodEntry(w.slots[i], names, w.used) ==> !Hits(w.slots[i], n, g);
      assert HitProbe(w.slots, n, g, 0) == MAX_PROBES;
    }
  }

  /** Stamps count up from the initial table: with DPI never disabled and fewer than 2^32 reloads
      they are all different. */
  ghost predicate CountsUp(w: World, n: nat) {
    w.active.Some? && w.active.value.generation == n && forall g | g in w.used :: g <= n
  }

  ghost predicate NeverDisabled(ops: seq<Op>, names: set<Bytes>) {
    forall i :: 0 <= i < |ops| ==>
      match ops[i]
      case Query(name) => name in names
      case Swap(None) => false
      case Swap(Some(t)) => Indexable(t, names)
  }

  lemma OpKeepsEntries(w: World, op: Op, names: set<Bytes>)
    requires GoodCache(w.slots, names, w.used) && (w.active.Some? ==> w.active.value.generation in w.used)
    requires op.Query? ==> op.name in names
    ensures var w' := Done(w, op);
            GoodCache(w'.slots, names, w'.used) && (w'.active.Some? ==> w'.active.value.generation in w'.used)
  {
    hide GoodEntry, Cached, Stored, Match, Shaped;
    match op {
      case Query(n) =>
        if w.active.Some? && Cached(w.slots, n, w.active.value.generation) == NO_MATCH {
          MissStores(w.slots, w.active.value, n);
          StoredIsGood(w.slots, names, w.used, n, IndexFor(w.active.value, n), w.active.value.generation);
        }
      case Swap(None) =>
      case Swap(Some(_)) => MoreStamps(w.slots, names, w.used, NextGeneration(w.active));
    }
  }

  lemma {:induction false} StampsStayFresh(w: World, ops: seq<Op>, names: set<Bytes>, n: nat)
    requires GoodCache(w.slots, names, w.used) && CountsUp(w, n) && w.active.value.generation in w.used
    requires NeverDisabled(ops, names) && n + |ops| < TWO_32
    ensures Orderly(w, ops, names)
    decreases |ops|
  {
    if ops != [] {
      hide Indexable, Matched, GoodCache, StampIsClear;
      assert OrderlyOp(w, ops[0], names) by {
        if ops[0].Swap? {
          NewStampIsClear(w, names);
        }
      }
      OpKeepsEntries(w, ops[0], names);
      var n' := if ops[0].Swap? then n + 1 else n;
      assert CountsUp(Done(w, ops[0]), n');
      assert NeverDisabled(ops[1..], names);
      StampsStayFresh(Done(w, ops[0]), ops[1..], names, n');
    }
  }

  // ---------------------------------------------------------------- from the start

  ghost predicate Blank(slots: seq<Entry>) {
    |slots| == SLOTS && forall i :: 0 <= i < SLOTS ==> slots[i] == EMPTY_ENTRY
  }

  /** A new worker's cache, in front of the first table, is good. */
  lemma EmptyCacheIsGood(slots: seq<Entry>, t: Table, names: set<Bytes>)
    requires Blank(slots) && |t.filters| <= TWO_16
    ensures Shaped(slots) && GoodWorld(World(slots, Some(t), {t.generation}), names)
  {
    hide Match, Hash32;
    SmallTablesIndexable(t, names);
  }

  /** Only tables of at most 65536 filters are swapped in, and DPI stays on. */
  ghost predicate SmallSwaps(ops: seq<Op>, names: set<Bytes>) {
    forall i :: 0 <= i < |ops| ==>
      if ops[i].Query? then ops[i].name in names else ops[i].table.Some? && |ops[i].table.value.filters| <= TWO_16
  }

  /** A run from the beginning: an empty cache, the first, unstamped table, and fewer than 2^32 queries and reloads. */
  ghost predicate FromTheStart(slots: seq<Entry>, t: Table, ops: seq<Op>, names: set<Bytes>) {
    && Blank(slots) && Shaped(slots) && t.generation == 0 && |t.filters| <= TWO_16
    && SmallSwaps(ops, names) && |ops| < TWO_32
  }

  /** For names the cache can tell apart, through any sequence of queries and of fewer than 2^32 reloads to tables of
      at most 65536 filters, every answer is what the active table says. */
  lemma CacheIsTransparentFromTheStart(slots: seq<Entry>, t: Table, ops: seq<Op>, names: set<Bytes>, name: Bytes)
    requires FromTheStart(slots, t, ops, names) && Separated(names) && name in names
    ensures var w := RunOps(World(slots, Some(t), {0}), ops);
            w.active.Some? && Answer(w, name) == Match(w.active.value, name)
  {
    EmptyCacheIsGood(slots, t, names);
    var w := World(slots, Some(t), {0});
    hide Match, Shaped, GoodCache, GoodEntry, Separated, RightCache;
    forall i | 0 <= i < |ops| && ops[i].Swap? ensures Indexable(ops[i].table.value, names) {
      SmallTablesIndexable(ops[i].table.value, names);
    }
    hide Indexable;
    StampsStayFresh(w, ops, names, 0);
    CacheIsTransparent(w, ops, names, name);
    StaysEnabled(w, ops, names);
  }

  lemma {:induction false} StaysEnabled(w: World, ops: seq<Op>, names: set<Bytes>)
    requires Shaped(w.slots) && w.active.Some? && SmallSwaps(ops, names)
    ensures RunOps(w, ops).active.Some?
    decreases |ops|
  {
    hide Matched;
    if ops != [] {
      DoneShaped(w, ops[0]);
      StaysEnabled(Done(w, ops[0]), ops[1..], names);
    }
  }

  /** The names a cache can serve: from the start, every run over `names` and every table gets the right answers if
      and only if no two cacheable names among them share hash and key bytes. */
  lemma NamesServedIff(names: set<Bytes>)
    ensures (forall slots, t: Table, ops, name | FromTheStart(slots, t, ops, names) && name in names ::
               var w := RunOps(World(slots, Some(t), {0}), ops);
               w.active.Some? && Answer(w, name) == Match(w.active.value, name))
            <==> Separated(names)
  {
    if Separated(names) {
      forall slots, t: Table, ops, name | FromTheStart(slots, t, ops, names) && name in names
        ensures var w := RunOps(World(slots, Some(t), {0}), ops);
                w.active.Some? && Answer(w, name) == Match(w.active.value, name)
      {
        CacheIsTransparentFromTheStart(slots, t, ops, names, name);
      }
    } else {
      var a, b :| a in names && b in names && Cacheable(a) && Cacheable(b) && Confusable(a, b) && a != b;
      WrongForTheSecond(names, a, b);
    }
  }

  /** A table of one filter that matches `a` alone. */
  function Single(a: Bytes): Table {
    Table([Filter("", "", 0)], name => if name == a then [0] else [], 0)
  }

  lemma WrongForTheSecond(names: set<Bytes>, a: Bytes, b: Bytes)
    requires a in names && b in names && Cacheable(a) && Cacheable(b) && Confusable(a, b) && a != b
    ensures exists slots, t: Table, ops | FromTheStart(slots, t, ops, names) ::
              var w := RunOps(World(slots, Some(t), {0}), ops);
              w.active.Some? && Answer(w, b) != Match(w.active.value, b)
  {
    var slots, t := seq(SLOTS, _ => EMPTY_ENTRY), Single(a);
    assert Match(t, a) == Some(t.filters[0]) && Match(t, b) == None by { SingleMatches(a, b); }
    assert SearchIndex(t.filters, t.filters[0], 0, 0) == 0;
    hide Match, Hash32, KeyMatches, SearchIndex;
    ConfusableNamesShareAnswers(slots, t, a, b);
    hide Matched;
    var ops := [Query(a)];
    var w := World(slots, Some(t), {0});
    assert ops[1..] == [];
    assert RunOps(w, ops) == Done(w, Query(a));
    assert FromTheStart(slots, t, ops, names);
  }

  lemma SingleMatches(a: Bytes, b: Bytes)
    requires a != [] && a != b
    ensures Match(Single(a), a) == Some(Single(a).filters[0]) && Match(Single(a), b) == None
  {
    var t := Single(a);
    assert Fold(t.filters, [0], None) == Fold(t.filters, [0][1..], Better(t.filters, None, 0)) == Some(0);
  }

  // ---------------------------------------------------------------- where transparency ends

  /** Disabling DPI and enabling it again restarts the stamps at 1. A result cached under the first
      table is then served as a result of the second one, whatever that table says. */
  lemma ReenablingServesStaleResults(slots: seq<Entry>, first: Table, second: Table, name: Bytes)
    requires Shaped(slots) && name != [] && Hash32(name) != 0
    requires Cached(slots, name, 1) == NO_MATCH && StoreProbe(slots, name, 0) < MAX_PROBES
    requires Match(first, name).Some?
    requires var index := SearchIndex(first.filters, Match(first, name).value, 0, 0);
             index != NO_MATCH && index < |second.filters|
    ensures var w := World(slots, None, {});
            var ops := [Swap(Some(first)), Query(name), Swap(None), Swap(Some(second))];
            var index := SearchIndex(first.filters, Match(first, name).value, 0, 0);
            Answer(RunOps(w, ops), name) == Some(second.filters[index])
  {
    var w := World(slots, None, {});
    var index := SearchIndex(first.filters, Match(first, name).value, 0, 0);
    var ops := [Swap(Some(first)), Query(name), Swap(None), Swap(Some(second))];
    var t1, t2 := first.(generation := 1), second.(generation := 1);
    assert Match(t1, name) == Match(first, name);
    var w1 := Done(w, ops[0]);
    assert w1 == World(slots, Some(t1), {1});
    var w2 := Done(w1, ops[1]);
    StoredIsFound(slots, name, index, 1);
    hide Match, Cached, Stored, SearchIndex, Hash32;
    assert w2 == World(Stored(slots, name, index, 1), Some(t1), {1});
    var w3 := Done(w2, ops[2]);
    var w4 := Done(w3, ops[3]);
    assert w4 == World(w2.slots, Some(t2), {1});
    assert ops[1..] == [ops[1], ops[2], ops[3]] && ops[1..][1..] == [ops[2], ops[3]];
    assert ops[1..][1..][1..] == [ops[3]] && ops[1..][1..][1..][1..] == [];
    assert RunOps(w, ops) == RunOps(w1, ops[1..]) == RunOps(w2, ops[1..][1..]);
    assert RunOps(w2, ops[1..][1..]) == RunOps(w3, ops[1..][1..][1..]) == RunOps(w4, []) == w4;
  }

  /** A confusable pair of names shares one entry: after a positive answer for `a`, the cache
      answers `a`'s filter for `b`. With the colliding names above this happens. */
  lemma ConfusableNamesShareAnswers(slots: seq<Entry>, t: Table, a: Bytes, b: Bytes)
    requires Shaped(slots) && Cacheable(a) && b != [] && Confusable(a, b)
    requires forall i :: 0 <= i < SLOTS ==> slots[i].hash == 0
    requires Match(t, a).Some? && FoundBy16Bits(t.filters, Match(t, a).value)
    requires SearchIndex(t.filters, Match(t, a).value, 0, 0) != NO_MATCH
    ensures Matched(Matched(slots, t, a).slots, t, b).answer == Match(t, a)
  {
    hide Hash32, KeyMatches, StoredKey, Match;
    var f := Match(t, a).value;
    var i :| 0 <= i < |t.filters| && i < TWO_16 && t.filters[i] == f;
    SearchFinds(t.filters, f, 0, 0, i);
    var index := SearchIndex(t.filters, f, 0, 0);
    hide SearchIndex;
    var after := Stored(slots, a, index, t.generation);
    assert StoreProbe(slots, a, 0) == 0;
    assert HitProbe(slots, a, t.generation, 0) == MAX_PROBES;
    assert Hits(after[Position(Hash32(b), 0)], b, t.generation);
    assert HitProbe(after, b, t.generation, 0) == 0;
  }

  /** The 16-bit index search: with an empty cache the second answer for a name is right if and only if the matching
      filter is one of the first 65536, or the number of filters is a multiple of 65536. */
  lemma SecondAnswerRightIff(slots: seq<Entry>, t: Table, name: Bytes)
    requires Blank(slots) && Shaped(slots) && Cacheable(name)
    ensures Matched(Matched(slots, t, name).slots, t, name).answer == Match(t, name) <==> Indexed(t, name)
  {
    var g, index := t.generation, IndexFor(t, name);
    assert HitProbe(slots, name, g, 0) == MAX_PROBES && StoreProbe(slots, name, 0) == 0 by { hide Hash32; }
    StoredIsFound(slots, name, index, g);
    StoredIndexRightIff(t, name);
    MatchIsAFilter(t, name);
    hide Hash32, Match, Stored, Indexed;
    MissStores(slots, t, name);
    hide IndexFor;
  }

  /** The cache records "no match" but never serves it: a name the table does not match is looked
      up in the table again every time. */
  lemma NegativeResultsAreNeverServed(slots: seq<Entry>, t: Table, names: set<Bytes>, name: Bytes)
    requires Shaped(slots) && RightCache(slots, t, names) && name in names
    requires Match(t, name) == None
    ensures !Matched(slots, t, name).hit
  {
    hide Cached, Match, Stored;
    assert RightIndex(t, name, Cached(slots, name, t.generation));
  }

  /** All the same it takes up room: a name without a match claims the first slot of its window if that is empty. */
  lemma NegativeResultsTakeRoom(slots: seq<Entry>, t: Table, name: Bytes)
    requires Shaped(slots) && Cacheable(name) && Match(t, name) == None && slots[Hash32(name) % 4096].hash == 0
    requires Cached(slots, name, t.generation) == NO_MATCH
    ensures var e := Matched(slots, t, name).slots[Hash32(name) % 4096];
            e.hash == Hash32(name) && e.index == 0xFFFF && e.generation == t.generation
  {
    hide Hash32, Match, Cached, StoredKey;
    var h := Hash32(name);
    assert Position(h, 0) == h % 4096;
    assert StoreProbe(slots, name, 0) == 0;
  }
}
