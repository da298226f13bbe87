/** Compilation of the sorted groups into ACL chunks, and the two matching loops over them. */
module RuleTable {
  import opened Machine
  import opened Packet
  import opened RuleMatching

  const CHUNK_GROUPS: nat := 256

  // ---------------------------------------------------------------- compilation

  lemma {:induction false} GroupRulesLength(group: Group, g: nat, n: nat)
    requires n <= |group.filters|
    ensures |GroupRules(group, g, n)| == n
  {
    if n > 0 {
      GroupRulesLength(group, g, n - 1);
    }
  }

  /** Fill the rule buffer of one chunk. */
  method BuildChunkRules(groups: seq<Group>, start: nat, count: nat) returns (rules: seq<AclRule>)
    requires start + count <= |groups|
    ensures rules == ChunkRules(groups, start, count)
  {
    rules := [];
    var category := 0;
    while category < count
      invariant 0 <= category <= count
      invariant rules == ChunkRules(groups, start, category)
    {
      var group := groups[start + category];
      ghost var before := rules;
      var f := 0;
      while f < |group.filters|
        invariant 0 <= f <= |group.filters|
        invariant rules == before + GroupRules(group, start + category, f)
      {
        rules := rules + [BuildAclRule(group.filters[f], start + category, f, group.precedence)];
        f := f + 1;
      }
      category := category + 1;
    }
  }

  method CountRules(groups: seq<Group>, start: nat, count: nat) returns (total: nat)
    requires start + count <= |groups|
    ensures total == |ChunkRules(groups, start, count)|
  {
    total := 0;
    var i := 0;
    while i < count
      invariant 0 <= i <= count
      invariant total == |ChunkRules(groups, start, i)|
    {
      GroupRulesLength(groups[start + i], start + i, |groups[start + i].filters|);
      total := total + |groups[start + i].filters|;
      i := i + 1;
    }
  }

  datatype Window = Window(start: nat, count: nat)

  predicate IsWindow(groups: seq<Group>, w: Window) {
    && w.start % CHUNK_GROUPS == 0 && w.start < |groups|
    && w.count == Min(CHUNK_GROUPS, |groups| - w.start)
  }

  function RulesIn(groups: seq<Group>, w: Window): seq<AclRule>
    requires IsWindow(groups, w)
  {
    ChunkRules(groups, w.start, w.count)
  }

  ghost predicate Ascending(windows: seq<Window>) {
    forall i, j :: 0 <= i < j < |windows| ==> windows[i].start + windows[i].count <= windows[j].start
  }

  /** The windows below `limit` that hold a rule, in order. */
  ghost predicate WindowsBelow(groups: seq<Group>, windows: seq<Window>, limit: nat) {
    && (forall i :: 0 <= i < |windows| ==> IsWindow(groups, windows[i]) && RulesIn(groups, windows[i]) != [])
    && (forall i :: 0 <= i < |windows| ==> windows[i].start + windows[i].count <= limit)
    && Ascending(windows)
    && (forall w | IsWindow(groups, w) && w.start < limit && RulesIn(groups, w) != [] :: w in windows)
  }

  /** Split the sorted groups into windows of 256 and keep those that hold a rule. */
  method SplitIntoWindows(groups: seq<Group>) returns (windows: seq<Window>)
    ensures WindowsBelow(groups, windows, |groups|)
  {
    hide WindowsBelow, ChunkRules;
    windows := [];
    NoWindows(groups);
    var start := 0;
    while start < |groups|
      invariant start % CHUNK_GROUPS == 0
      invariant WindowsBelow(groups, windows, Min(start, |groups|))
    {
      var w := Window(start, Min(CHUNK_GROUPS, |groups| - start));
      var total := CountRules(groups, w.start, w.count);
      ghost var before := windows;
      if total > 0 {
        windows := windows + [w];
      }
      OneMoreWindow(groups, before, w);
      start := start + CHUNK_GROUPS;
    }
  }

  lemma NoWindows(groups: seq<Group>)
    ensures WindowsBelow(groups, [], 0)
  {}

  lemma OneMoreWindow(groups: seq<Group>, windows: seq<Window>, w: Window)
    requires IsWindow(groups, w) && WindowsBelow(groups, windows, w.start)
    ensures WindowsBelow(groups, if RulesIn(groups, w) != [] then windows + [w] else windows, w.start + w.count)
  {
    hide ChunkRules;
    var r := if RulesIn(groups, w) != [] then windows + [w] else windows;
    forall v | IsWindow(groups, v) && v.start < w.start + w.count && RulesIn(groups, v) != [] ensures v in r {
      if v.start >= w.start {
        assert v.start == w.start by { NextMultiple(w.start, v.start, CHUNK_GROUPS); }
        assert v == w;
      }
    }
  }

  lemma NextMultiple(a: nat, b: nat, step: nat)
    requires step == CHUNK_GROUPS && a % step == 0 && b % step == 0 && a <= b < a + step
    ensures a == b
  {}

  /** The ACL library as a build function: a context it delivers answers for its rules, and it refuses
      priorities outside its range. */
  ghost predicate Library(build: seq<AclRule> -> Option<AclInput -> U32>) {
    forall rules: seq<AclRule> :: build(rules).Some? ==>
      && (forall x: AclInput :: Answers(rules, x, build(rules).value(x)))
      && (forall i :: 0 <= i < |rules| ==> 0 <= rules[i].priority <= MAX_PRIORITY)
  }

  ghost predicate Refused(groups: seq<Group>, build: seq<AclRule> -> Option<AclInput -> U32>) {
    exists w :: IsWindow(groups, w) && RulesIn(groups, w) != [] && build(RulesIn(groups, w)).None?
  }

  /** Compile the sorted groups: fails exactly when there is no rule at all or the library refuses a window, and
      otherwise yields ascending chunks that together answer for every filter. */
  method CompileChunks(groups: seq<Group>,
                       build: seq<AclRule> -> Option<AclInput -> U32>) returns (r: Option<seq<Chunk>>)
    requires Library(build)
    ensures r.None? <==> ChunkRules(groups, 0, |groups|) == [] || Refused(groups, build)
    ensures r.Some? ==> ChunksOk(groups, r.value)
  {
    hide ChunksOk, Library;
    var total := CountRules(groups, 0, |groups|);
    if total == 0 {
      return None;
    }
    var windows := SplitIntoWindows(groups);
    var chunks: seq<Chunk> := [];
    var i := 0;
    while i < |windows|
      invariant 0 <= i <= |windows| && |chunks| == i
      invariant forall j :: 0 <= j < i ==> Built(groups, windows[j], chunks[j], build)
    {
      assert IsWindow(groups, windows[i]) && RulesIn(groups, windows[i]) != [];
      var rules := BuildChunkRules(groups, windows[i].start, windows[i].count);
      var context := build(rules);
      if context.None? {
        return None;
      }
      chunks := chunks + [Chunk(windows[i].start, windows[i].count, context.value)];
      i := i + 1;
    }
    assert !Refused(groups, build) by {
      forall w | IsWindow(groups, w) && RulesIn(groups, w) != [] ensures build(RulesIn(groups, w)).Some? {
        assert w in windows;
        var j :| 0 <= j < |windows| && windows[j] == w;
        assert Built(groups, windows[j], chunks[j], build);
      }
    }
    ChunksFromWindows(groups, windows, chunks, build);
    r := Some(chunks);
  }

  ghost predicate Built(groups: seq<Group>, w: Window, c: Chunk, build: seq<AclRule> -> Option<AclInput -> U32>) {
    && IsWindow(groups, w) && c.start == w.start && c.count == w.count
    && build(RulesIn(groups, w)).Some? && c.classify == build(RulesIn(groups, w)).value
  }

  lemma ChunksFromWindows(groups: seq<Group>, windows: seq<Window>, chunks: seq<Chunk>,
                          build: seq<AclRule> -> Option<AclInput -> U32>)
    requires Library(build) && WindowsBelow(groups, windows, |groups|) && |chunks| == |windows|
    requires forall j :: 0 <= j < |windows| ==> Built(groups, windows[j], chunks[j], build)
    ensures ChunksOk(groups, chunks)
  {
    hide ChunkRules, Answers;
    forall c | 0 <= c < |chunks| ensures ChunkOk(groups, chunks[c]) {
      BuiltIsOk(groups, windows[c], chunks[c], build);
    }
    forall c, d | 0 <= c < d < |chunks| ensures chunks[c].start + chunks[c].count <= chunks[d].start {
      assert Built(groups, windows[c], chunks[c], build) && Built(groups, windows[d], chunks[d], build);
    }
    forall g: nat, f: nat | IsFilter(groups, g, f) ensures Covered(groups, chunks, g) {
      var w := WindowOf(groups, g);
      WindowHoldsRule(groups, g, f);
      var j :| 0 <= j < |windows| && windows[j] == w;
      assert Built(groups, windows[j], chunks[j], build);
      assert InChunk(chunks[j], g);
    }
  }

  lemma BuiltIsOk(groups: seq<Group>, w: Window, c: Chunk, build: seq<AclRule> -> Option<AclInput -> U32>)
    requires Library(build) && Built(groups, w, c, build)
    ensures ChunkOk(groups, c)
  {
    hide ChunkRules, Answers;
    assert build(RulesIn(groups, w)).Some?;
  }

  function WindowOf(groups: seq<Group>, g: nat): (w: Window)
    requires g < |groups|
    ensures IsWindow(groups, w) && w.start <= g < w.start + w.count
  {
    var start := g - g % CHUNK_GROUPS;
    Window(start, Min(CHUNK_GROUPS, |groups| - start))
  }

  lemma WindowHoldsRule(groups: seq<Group>, g: nat, f: nat)
    requires IsFilter(groups, g, f)
    ensures RulesIn(groups, WindowOf(groups, g)) != []
  {
    hide ChunkRules;
    var w := WindowOf(groups, g);
    ChunkRulesMember(groups, w.start, w.count, RuleAt(groups, g, f));
  }

  // ---------------------------------------------------------------- matching

  /** Match one packet: the walk over the chunks, leaving at the first decodable answer. */
  method Match(groups: seq<Group>, chunks: seq<Chunk>, packet: Metadata) returns (r: Classification)
    ensures r == FirstHit(groups, chunks, packet, 0)
  {
    hide InputOf, Decoded;
    var i := 0;
    while i < |chunks|
      invariant 0 <= i <= |chunks|
      invariant FirstHit(groups, chunks, packet, 0) == FirstHit(groups, chunks, packet, i)
    {
      var userdata := chunks[i].classify(InputOf(packet));
      if userdata != 0 {
        var decoded := Decoded(groups, userdata, packet);
        if decoded.Some? {
          return decoded.value;
        }
      }
      i := i + 1;
    }
    r := MISS;
  }

  /** The answer after the first `i` chunks have been consulted. */
  function HitWithin(groups: seq<Group>, chunks: seq<Chunk>, m: Metadata, i: nat): Classification
    requires i <= |chunks|
  {
    if i == 0 then MISS
    else if HitWithin(groups, chunks, m, i - 1).matched then HitWithin(groups, chunks, m, i - 1)
    else
      var u := chunks[i - 1].classify(InputOf(m));
      if u != 0 && Decoded(groups, u, m).Some? then Decoded(groups, u, m).value else MISS
  }

  /** Consulting chunks for a whole burst or for one packet comes to the same. */
  lemma {:induction false} HitWithinIsFirstHit(groups: seq<Group>, chunks: seq<Chunk>, m: Metadata, i: nat)
    requires i <= |chunks|
    ensures FirstHit(groups, chunks, m, 0) ==
            if HitWithin(groups, chunks, m, i).matched
               then HitWithin(groups, chunks, m, i) else FirstHit(groups, chunks, m, i)
    ensures !HitWithin(groups, chunks, m, i).matched ==> HitWithin(groups, chunks, m, i) == MISS
  {
    hide InputOf;
    if i > 0 {
      HitWithinIsFirstHit(groups, chunks, m, i - 1);
    }
  }

  /** Match a burst chunk by chunk. Only the first 64 packets are looked at; results beyond are left alone. */
  method MatchBulk(groups: seq<Group>, chunks: seq<Chunk>, packets: seq<Metadata>, results: array<Classification>)
    requires results.Length >= |packets|
    modifies results
    ensures forall p :: 0 <= p < results.Length ==>
              results[p] == if p < Min(|packets|, if chunks == [] then |packets| else BULK_MAX)
                            then FirstHit(groups, chunks, packets[p], 0) else old(results[p])
  {
    hide InputOf, Decoded, FirstHit;
    var n := if chunks == [] then |packets| else Min(|packets|, BULK_MAX);
    Cleared(groups, chunks, packets);
    var q := 0;
    while q < n
      invariant 0 <= q <= n
      invariant forall p :: 0 <= p < results.Length ==> results[p] == if p < q then MISS else old(results[p])
    {
      results[q] := MISS;
      q := q + 1;
    }
    var i := 0;
    while i < |chunks|
      invariant 0 <= i <= |chunks|
      invariant forall p :: 0 <= p < n ==> results[p] == HitWithin(groups, chunks, packets[p], i)
      invariant forall p :: n <= p < results.Length ==> results[p] == old(results[p])
    {
      BulkChunk(groups, chunks, packets, results, n, i);
      i := i + 1;
      var all := AllMatched(results, n);
      if all {
        break;
      }
    }
    forall p | 0 <= p < n ensures results[p] == FirstHit(groups, chunks, packets[p], 0) {
      HitWithinIsFirstHit(groups, chunks, packets[p], i);
      EndOfWalk(groups, chunks, packets[p]);
    }
  }

  lemma Cleared(groups: seq<Group>, chunks: seq<Chunk>, packets: seq<Metadata>)
    ensures forall p :: 0 <= p < |packets| ==> HitWithin(groups, chunks, packets[p], 0) == MISS
  {}

  lemma EndOfWalk(groups: seq<Group>, chunks: seq<Chunk>, m: Metadata)
    ensures FirstHit(groups, chunks, m, |chunks|) == MISS
  {}

  /** One chunk's answers for the packets of the burst that are still unmatched. */
  method BulkChunk(groups: seq<Group>, chunks: seq<Chunk>, packets: seq<Metadata>, results: array<Classification>,
                   n: nat, i: nat)
    requires n <= |packets| <= results.Length && i < |chunks|
    requires forall p :: 0 <= p < n ==> results[p] == HitWithin(groups, chunks, packets[p], i)
    modifies results
    ensures forall p :: 0 <= p < n ==> results[p] == HitWithin(groups, chunks, packets[p], i + 1)
    ensures forall p :: n <= p < results.Length ==> results[p] == old(results[p])
  {
    hide InputOf, Decoded, HitWithin;
    var p := 0;
    while p < n
      invariant 0 <= p <= n
      invariant forall q :: 0 <= q < n ==>
                results[q] == HitWithin(groups, chunks, packets[q], if q < p then i + 1 else i)
      invariant forall q :: n <= q < results.Length ==> results[q] == old(results[q])
    {
      OneChunk(groups, chunks, packets[p], i);
      if !results[p].matched {
        var userdata := chunks[i].classify(InputOf(packets[p]));
        if userdata != 0 {
          var decoded := Decoded(groups, userdata, packets[p]);
          if decoded.Some? {
            results[p] := decoded.value;
          }
        }
      }
      p := p + 1;
    }
  }

  lemma OneChunk(groups: seq<Group>, chunks: seq<Chunk>, m: Metadata, i: nat)
    requires i < |chunks|
    ensures var before, u := HitWithin(groups, chunks, m, i), chunks[i].classify(InputOf(m));
            && (!before.matched ==> before == MISS)
            && HitWithin(groups, chunks, m, i + 1) ==
            if before.matched then before
            else if u != 0 && Decoded(groups, u, m).Some? then Decoded(groups, u, m).value else MISS
  {
    hide FirstHit, InputOf;
    HitWithinIsFirstHit(groups, chunks, m, i);
  }

  method AllMatched(results: array<Classification>, n: nat) returns (all: bool)
    requires n <= results.Length
    ensures all <==> forall p :: 0 <= p < n ==> results[p].matched
  {
    all := true;
    var p := 0;
    while p < n
      invariant 0 <= p <= n
      invariant forall q :: 0 <= q < p ==> results[q].matched
    {
      if !results[p].matched {
        return false;
      }
      p := p + 1;
    }
  }
}
