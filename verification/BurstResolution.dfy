/** SPI resolution of a whole burst: cache hits aside, the tuple-space probe, the prefilter and the bulk ACL match
    are applied in gather and scatter phases. */
module BurstResolution {
  import opened Machine
  import opened Packet
  import FlowStore
  import opened RuleMatching
  import opened RuleTable
  import MemberFilter
  import TupleSpace

  type FlowKey = FlowStore.FlowKey

  const MAX_BURST: nat := 256

  /** Where parsing put a received packet. */
  datatype Place = Parsed(index: nat) | Unmapped | Waiting

  /** A rule table as the resolution sees it; `stored` are the tuple-space entries in scan order. */
  datatype Rules = Rules(groups: seq<Group>, chunks: seq<Chunk>, prefilter: MemberFilter.Prefilter,
                         stored: seq<TupleSpace.Entry>)

  /** The parsed packets of a burst and which of them the flow cache answered. */
  datatype Burst = Burst(places: seq<Place>, metadata: seq<Metadata>, keys: seq<FlowKey>, cached: seq<bool>)

  ghost predicate BurstOk(b: Burst) {
    && |b.places| <= MAX_BURST && |b.metadata| <= MAX_BURST && |b.keys| == |b.metadata| && |b.cached| == |b.metadata|
    && (forall i :: 0 <= i < |b.places| && b.places[i].Parsed? ==> b.places[i].index < |b.metadata|)
    && (forall i, j :: 0 <= i < j < |b.places| && b.places[i].Parsed? ==> b.places[i] != b.places[j])
  }

  function ResultForCategory(groups: seq<Group>, category: U32): Classification {
    if category >= |groups| then MISS else Hit(groups[category], "")
  }

  function Probe(t: Rules, key: FlowKey): U32 {
    TupleSpace.FirstOwner(t.stored, key)
  }

  /** How a single packet is resolved: the tuple-space table, else the ACL. */
  function Resolve(t: Rules, key: FlowKey, m: Metadata): Classification {
    if Probe(t, key) != TupleSpace.NO_HIT then ResultForCategory(t.groups, Probe(t, key))
    else FirstHit(t.groups, t.chunks, m, 0)
  }

  predicate NeedsAcl(t: Rules, b: Burst, i: nat)
    requires i < |b.places| && |b.keys| == |b.metadata| && |b.cached| == |b.metadata|
    requires b.places[i].Parsed? ==> b.places[i].index < |b.metadata|
  {
    b.places[i].Parsed? && !b.cached[b.places[i].index] && Probe(t, b.keys[b.places[i].index]) == TupleSpace.NO_HIT
  }

  /** The packets among the first `n` that neither the flow cache nor the tuple-space table answers. */
  ghost function Misses(t: Rules, b: Burst, n: nat): seq<nat>
    requires BurstOk(b) && n <= |b.places|
  {
    if n == 0 then [] else Misses(t, b, n - 1) + if NeedsAcl(t, b, n - 1) then [b.places[n - 1].index] else []
  }

  /** The prefilter looks at the first 64 misses only. */
  predicate Kept(t: Rules, m: Metadata, position: nat) {
    position >= BULK_MAX || !MemberFilter.Skips(t.prefilter, m)
  }

  /** The misses among the first `n` that the prefilter lets through to the ACL. */
  ghost function Candidates(t: Rules, metadata: seq<Metadata>, misses: seq<nat>, n: nat): seq<nat>
    requires n <= |misses| && forall k :: 0 <= k < |misses| ==> misses[k] < |metadata|
  {
    if n == 0 then []
    else Candidates(t, metadata, misses, n - 1) + if Kept(t, metadata[misses[n - 1]], n - 1)
         then [misses[n - 1]] else []
  }

  ghost function AclCandidates(t: Rules, b: Burst): seq<nat>
    requires BurstOk(b)
  {
    var misses := Misses(t, b, |b.places|);
    MissesAre(t, b, |b.places|);
    Candidates(t, b.metadata, misses, |misses|)
  }

  /** What the batched phases leave for parsed packet `p`: only the first 64 candidates reach the ACL. */
  ghost function Outcome(t: Rules, b: Burst, p: nat): Classification
    requires BurstOk(b) && p < |b.metadata|
  {
    var candidates := AclCandidates(t, b);
    if Probe(t, b.keys[p]) != TupleSpace.NO_HIT then ResultForCategory(t.groups, Probe(t, b.keys[p]))
    else if p in candidates[..Min(|candidates|, BULK_MAX)] then FirstHit(t.groups, t.chunks, b.metadata[p], 0)
    else MISS
  }

  ghost predicate Distinct(s: seq<nat>) {
    forall i, j :: 0 <= i < j < |s| ==> s[i] != s[j]
  }

  /** The misses are exactly the packets that need the ACL, each once. */
  lemma {:induction false} MissesAre(t: Rules, b: Burst, n: nat)
    requires BurstOk(b) && n <= |b.places|
    ensures forall k :: 0 <= k < |Misses(t, b, n)| ==> Misses(t, b, n)[k] < |b.metadata|
    ensures forall p :: p in Misses(t, b, n) <==> exists i :: 0 <= i < n && NeedsAcl(t, b, i) && b.places[i].index == p
    ensures Distinct(Misses(t, b, n)) && |Misses(t, b, n)| <= n
  {
    hide Probe;
    if n > 0 {
      MissesAre(t, b, n - 1);
      var head := Misses(t, b, n - 1);
      if NeedsAcl(t, b, n - 1) {
        var p := b.places[n - 1].index;
        forall i | 0 <= i < n - 1 && NeedsAcl(t, b, i) ensures b.places[i].index != p {
          assert b.places[i] != b.places[n - 1];
        }
        assert p !in head;
        assert Misses(t, b, n) == head + [p];
      }
    }
  }

  lemma {:induction false} CandidatesAre(t: Rules, metadata: seq<Metadata>, misses: seq<nat>, n: nat)
    requires n <= |misses| && forall k :: 0 <= k < |misses| ==> misses[k] < |metadata|
    requires Distinct(misses)
    ensures |Candidates(t, metadata, misses, n)| <= n && Distinct(Candidates(t, metadata, misses, n))
    ensures forall p :: p in Candidates(t, metadata, misses, n) <==>
                        exists k :: 0 <= k < n && misses[k] == p && Kept(t, metadata[p], k)
  {
    hide Kept;
    if n > 0 {
      CandidatesAre(t, metadata, misses, n - 1);
      var head := Candidates(t, metadata, misses, n - 1);
      if Kept(t, metadata[misses[n - 1]], n - 1) {
        assert misses[n - 1] !in head;
        assert Candidates(t, metadata, misses, n) == head + [misses[n - 1]];
      }
    }
  }

  // ---------------------------------------------------------------- agreement

  /** A compiled table, whether or not it has been moved: nothing is assumed of the flag for unbounded destinations. */
  ghost predicate RulesOk(t: Rules) {
    && SortedByPrecedence(t.groups) && Encodable(t.groups) && ChunksOk(t.groups, t.chunks)
    && (t.prefilter.member.Some? ==> MemberFilter.Remembers(t.groups, t.prefilter.member.value))
  }

  /** Parsed packet `p` of the burst was not answered by the flow cache. */
  ghost predicate FlowMiss(b: Burst, p: nat) {
    exists i :: 0 <= i < |b.places| && b.places[i] == Parsed(p) && p < |b.cached| && !b.cached[p]
  }

  /** The ACL's answer for a packet on its own. */
  function Alone(t: Rules, m: Metadata): Classification {
    FirstHit(t.groups, t.chunks, m, 0)
  }

  /** Packet `p` is among the candidates the bulk match looks at. */
  ghost predicate Reached(t: Rules, b: Burst, p: nat)
    requires BurstOk(b)
  {
    p in AclCandidates(t, b)[..Min(|AclCandidates(t, b)|, BULK_MAX)]
  }

  /** A flow miss is resolved as the packet alone would be if and only if the tuple-space table answers it, or
      it reaches the ACL, or the ACL has nothing for it. */
  lemma OutcomeRightIff(t: Rules, b: Burst, p: nat)
    requires BurstOk(b) && RulesOk(t) && p < |b.metadata|
    ensures Outcome(t, b, p) == Resolve(t, b.keys[p], b.metadata[p]) <==>
            Probe(t, b.keys[p]) != TupleSpace.NO_HIT || Reached(t, b, p) || !Alone(t, b.metadata[p]).matched
  {
    hide FirstHit, ResultForCategory, AclCandidates, RulesOk, Probe;
    UnmatchedIsMiss(t, b.metadata[p]);
  }

  lemma UnmatchedIsMiss(t: Rules, m: Metadata)
    requires RulesOk(t)
    ensures Alone(t, m).matched <==> Alone(t, m) != MISS
  {
    hide FirstHit, ChunksOk, Encodable, SortedByPrecedence, Matching;
    FirstHitIsBest(t.groups, t.chunks, m, 0);
  }

  /** A filter whose destination the prefilter cannot enumerate matches the packet. */
  ghost predicate UnboundedMatch(t: Rules, m: Metadata) {
    exists g: nat, f: nat :: Matching(t.groups, m, g, f) && MemberFilter.Unbounded(t.groups[g].filters[f])
  }

  /** What the ACL would have found for an IPv4 packet that the prefilter skips comes from an unbounded filter. */
  lemma SkippedMatchIsUnbounded(t: Rules, m: Metadata)
    requires RulesOk(t) && m.version.Ipv4? && MemberFilter.Skips(t.prefilter, m)
    ensures Alone(t, m).matched <==> UnboundedMatch(t, m)
  {
    hide FirstHit, FilterMatches, MemberFilter.Remembers, MemberFilter.Absent, WellFormed, MemberFilter.Unbounded,
      ChunkOk;
    FirstHitIsBest(t.groups, t.chunks, m, 0);
    forall g: nat, f: nat | Matching(t.groups, m, g, f)
      ensures MemberFilter.Unbounded(t.groups[g].filters[f]) && CoveredFrom(t.chunks, 0, g)
    {
      if !MemberFilter.Unbounded(t.groups[g].filters[f]) {
        MemberFilter.SkippedPacketsMatchNothing(t.groups, t.prefilter.member.value, m, g, f);
      }
      assert Covered(t.groups, t.chunks, g);
    }
  }

  ghost predicate AllIpv4(b: Burst) {
    forall p :: 0 <= p < |b.metadata| ==> b.metadata[p].version.Ipv4?
  }

  ghost predicate Agree(t: Rules, b: Burst)
    requires BurstOk(b)
  {
    forall p | 0 <= p < |b.metadata| && FlowMiss(b, p) :: Outcome(t, b, p) == Resolve(t, b.keys[p], b.metadata[p])
  }

  /** No candidate beyond the 64th has a match. */
  ghost predicate LateOnesMiss(t: Rules, b: Burst)
    requires BurstOk(b)
  {
    var candidates := AclCandidates(t, b);
    forall k :: BULK_MAX <= k < |candidates| && candidates[k] < |b.metadata| ==>
      !Alone(t, b.metadata[candidates[k]]).matched
  }

  /** No miss that the prefilter skips is matched by an unbounded filter. */
  ghost predicate SkippedOnesBounded(t: Rules, b: Burst)
    requires BurstOk(b)
  {
    var misses := Misses(t, b, |b.places|);
    forall k | 0 <= k < |misses| && k < BULK_MAX && misses[k] < |b.metadata| ::
      MemberFilter.Skips(t.prefilter, b.metadata[misses[k]]) ==> !UnboundedMatch(t, b.metadata[misses[k]])
  }

  /** Whatever the size of an IPv4 burst and whether or not the table has been moved: the batched phases
      resolve every flow miss as it would be resolved alone if and only if no candidate beyond the 64th has a
      match and no skipped miss is matched by an unbounded filter. */
  lemma BatchedResolutionAgreesIff(t: Rules, b: Burst)
    requires BurstOk(b) && RulesOk(t) && AllIpv4(b)
    ensures Agree(t, b) <==> LateOnesMiss(t, b) && SkippedOnesBounded(t, b)
  {
    hide Outcome, Resolve, Alone, RulesOk, AclCandidates, Misses, Reached, MemberFilter.Skips, UnboundedMatch, FlowMiss;
    forall p | 0 <= p < |b.metadata| && FlowMiss(b, p)
      ensures LateOnesMiss(t, b) && SkippedOnesBounded(t, b) ==>
              Outcome(t, b, p) == Resolve(t, b.keys[p], b.metadata[p])
    {
      OutcomeRightIff(t, b, p);
      if LateOnesMiss(t, b) && SkippedOnesBounded(t, b) {
        WhereAMissGoes(t, b, p);
      }
    }
    if Agree(t, b) {
      var candidates, misses := AclCandidates(t, b), Misses(t, b, |b.places|);
      forall k | BULK_MAX <= k < |candidates| && candidates[k] < |b.metadata|
        ensures !Alone(t, b.metadata[candidates[k]]).matched
      {
        LateCandidate(t, b, k);
        OutcomeRightIff(t, b, candidates[k]);
      }
      forall k | 0 <= k < |misses| && k < BULK_MAX && misses[k] < |b.metadata|
                 && MemberFilter.Skips(t.prefilter, b.metadata[misses[k]])
        ensures !UnboundedMatch(t, b.metadata[misses[k]])
      {
        SkippedMiss(t, b, k);
        OutcomeRightIff(t, b, misses[k]);
        SkippedMatchIsUnbounded(t, b.metadata[misses[k]]);
      }
    }
  }

  /** A flow miss is answered by the tuple-space table, reaches the ACL, is a late candidate, or is skipped. */
  lemma WhereAMissGoes(t: Rules, b: Burst, p: nat)
    requires BurstOk(b) && RulesOk(t) && AllIpv4(b) && p < |b.metadata| && FlowMiss(b, p)
    requires LateOnesMiss(t, b) && SkippedOnesBounded(t, b)
    ensures Probe(t, b.keys[p]) != TupleSpace.NO_HIT || Reached(t, b, p) || !Alone(t, b.metadata[p]).matched
  {
    hide Misses, Candidates, RulesOk, Alone, Probe, MemberFilter.Skips, UnboundedMatch;
    var misses, candidates := Misses(t, b, |b.places|), AclCandidates(t, b);
    MissesAre(t, b, |b.places|);
    CandidatesAre(t, b.metadata, misses, |misses|);
    if Probe(t, b.keys[p]) == TupleSpace.NO_HIT {
      var i :| 0 <= i < |b.places| && b.places[i] == Parsed(p) && !b.cached[p];
      assert NeedsAcl(t, b, i) && b.places[i].index == p;
      assert p in misses;
      var k :| 0 <= k < |misses| && misses[k] == p;
      if p in candidates {
        var j :| 0 <= j < |candidates| && candidates[j] == p;
        InPrefix(candidates, j);
      } else {
        assert !Kept(t, b.metadata[p], k);
        SkippedMatchIsUnbounded(t, b.metadata[p]);
      }
    }
  }

  lemma LateCandidate(t: Rules, b: Burst, k: nat)
    requires BurstOk(b) && BULK_MAX <= k < |AclCandidates(t, b)|
    ensures var p := AclCandidates(t, b)[k];
            p < |b.metadata| && FlowMiss(b, p) && Probe(t, b.keys[p]) == TupleSpace.NO_HIT && !Reached(t, b, p)
  {
    hide Misses, Candidates, Probe;
    var misses := Misses(t, b, |b.places|);
    MissesAre(t, b, |b.places|);
    CandidatesAre(t, b.metadata, misses, |misses|);
    CandidateIsFlowMiss(t, b, AclCandidates(t, b)[k]);
    InPrefix(AclCandidates(t, b), k);
  }

  lemma SkippedMiss(t: Rules, b: Burst, k: nat)
    requires BurstOk(b) && k < |Misses(t, b, |b.places|)| && k < BULK_MAX
    requires Misses(t, b, |b.places|)[k] < |b.metadata| &&
             MemberFilter.Skips(t.prefilter, b.metadata[Misses(t, b, |b.places|)[k]])
    ensures var p := Misses(t, b, |b.places|)[k];
            FlowMiss(b, p) && Probe(t, b.keys[p]) == TupleSpace.NO_HIT && !Reached(t, b, p)
  {
    hide Misses, Candidates, Probe, MemberFilter.Skips;
    var misses := Misses(t, b, |b.places|);
    var p := misses[k];
    MissesAre(t, b, |b.places|);
    CandidatesAre(t, b.metadata, misses, |misses|);
    assert p in misses;
    var i :| 0 <= i < |b.places| && NeedsAcl(t, b, i) && b.places[i].index == p;
    assert b.places[i] == Parsed(p);
    assert forall j :: 0 <= j < |misses| && misses[j] == p ==> j == k;
    assert p !in AclCandidates(t, b);
  }

  lemma CandidateIsFlowMiss(t: Rules, b: Burst, p: nat)
    requires BurstOk(b) && p in AclCandidates(t, b)
    ensures p < |b.metadata| && FlowMiss(b, p) && Probe(t, b.keys[p]) == TupleSpace.NO_HIT
  {
    hide Misses, Candidates, Probe;
    var misses := Misses(t, b, |b.places|);
    MissesAre(t, b, |b.places|);
    CandidatesAre(t, b.metadata, misses, |misses|);
    assert p in misses;
    var i :| 0 <= i < |b.places| && NeedsAcl(t, b, i) && b.places[i].index == p;
    assert b.places[i] == Parsed(p);
  }

  /** In particular, on bursts with at most 64 misses the two agree if and only if no skipped miss is matched
      by an unbounded filter, which cannot happen while the flag is as the value constructor sets it. */
  lemma SmallBurstsAgree(t: Rules, b: Burst)
    requires BurstOk(b) && RulesOk(t) && AllIpv4(b) && |Misses(t, b, |b.places|)| <= BULK_MAX
    ensures Agree(t, b) <==> SkippedOnesBounded(t, b)
    ensures t.prefilter.unbounded == MemberFilter.SomeUnbounded(t.groups) ==> SkippedOnesBounded(t, b)
  {
    hide Misses, Candidates, RulesOk, Agree, Alone, FilterMatches, MemberFilter.Unbounded, MemberFilter.Absent;
    BatchedResolutionAgreesIff(t, b);
    var misses := Misses(t, b, |b.places|);
    MissesAre(t, b, |b.places|);
    CandidatesAre(t, b.metadata, misses, |misses|);
  }

  // ---------------------------------------------------------------- tuple space against precedence

  /** The answer is that of precedence matching: no filter matches, or the reported precedence is that of a group with a
      matching filter and no such group has a smaller one. */
  ghost predicate ByPrecedence(groups: seq<Group>, m: Metadata, r: Classification) {
    if r.matched then
      && (exists g: nat, f: nat :: Matching(groups, m, g, f) && groups[g].precedence == r.precedence)
      && (forall g: nat, f: nat | Matching(groups, m, g, f) :: r.precedence <= groups[g].precedence)
    else forall g: nat, f: nat :: !Matching(groups, m, g, f)
  }

  /** A tuple-space hit is taken before the ACL, whatever the precedences. The resolution of a packet is precedence
      matching if and only if the tuple-space table has no entry for its key, or the ACL finds a match too and of the
      same precedence as the group of that entry. */
  lemma ResolveByPrecedenceIff(t: Rules, key: FlowKey, m: Metadata)
    requires RulesOk(t) && (Probe(t, key) == TupleSpace.NO_HIT || Probe(t, key) < |t.groups|)
    ensures ByPrecedence(t.groups, m, Resolve(t, key, m)) <==>
            || Probe(t, key) == TupleSpace.NO_HIT
            || (Alone(t, m).matched && Alone(t, m).precedence == t.groups[Probe(t, key)].precedence)
  {
    hide FirstHit, FilterMatches, Probe, ChunkOk, Encodable, SortedByPrecedence;
    FirstHitIsBest(t.groups, t.chunks, m, 0);
    forall g: nat, f: nat | Matching(t.groups, m, g, f) ensures CoveredFrom(t.chunks, 0, g) {
      assert Covered(t.groups, t.chunks, g);
    }
    var r := Alone(t, m);
    assert ByPrecedence(t.groups, m, r);
  }

  // ---------------------------------------------------------------- what a resolution reports

  /** The tuple-space entries are those of the groups, as many as fit, or none (a moved table). */
  ghost predicate StoredFrom(t: Rules) {
    |t.groups| < TupleSpace.NO_HIT
    && (t.stored == [] || t.stored == TupleSpace.Fitting(TupleSpace.Entries(t.groups, |t.groups|)))
  }

  /** Group `g` of the configuration has a filter that matches the packet, reported by its name, or one that owns the
      tuple-space key, reported without a name; the result is the group's in every field. */
  ghost predicate ReportsGroup(config: seq<Group>, key: FlowKey, m: Metadata, r: Classification, g: nat) {
    && g < |config| && Reports(r, config[g], r.filterName)
    && ((exists f: nat :: Matching(config, m, g, f) && r.filterName == config[g].filters[f].name)
        || (r.filterName == "" && exists f: nat :: TupleSpace.Owns(config, g, f, key)))
  }

  /** However a packet is resolved, alone or in a burst: a match reports name, action, inspection flag, link
      and precedence of a configured group with a filter that matches the packet or owns its tuple-space key.
      */
  lemma ResolutionReportsAGroup(config: seq<Group>, t: Rules, key: FlowKey, m: Metadata)
    requires multiset(t.groups) == multiset(config) && RulesOk(t) && StoredFrom(t)
    ensures Resolve(t, key, m).matched ==> exists g: nat :: ReportsGroup(config, key, m, Resolve(t, key, m), g)
  {
    hide FirstHit, FilterMatches, ChunkOk, Encodable, TupleSpace.Owns, TupleSpace.Entries, TupleSpace.Fitting;
    var r, owner := Resolve(t, key, m), Probe(t, key);
    if owner != TupleSpace.NO_HIT {
      OwnerReports(config, t, key, m);
    } else if r.matched {
      FirstHitIsBest(t.groups, t.chunks, m, 0);
      var g: nat, f: nat :| BestFrom(t.groups, t.chunks, m, 0, g, f, r);
      SomewhereIn(t.groups, config, g);
      var h: nat :| h < |config| && config[h] == t.groups[g];
      assert Matching(config, m, h, f);
      assert ReportsGroup(config, key, m, r, h);
    }
  }

  lemma OwnerReports(config: seq<Group>, t: Rules, key: FlowKey, m: Metadata)
    requires multiset(t.groups) == multiset(config) && RulesOk(t) && StoredFrom(t) && Probe(t, key) != TupleSpace.NO_HIT
    ensures exists g: nat :: ReportsGroup(config, key, m, Resolve(t, key, m), g)
  {
    hide FirstHit, FilterMatches, ChunksOk, Encodable, TupleSpace.Entries, TupleSpace.Fitting, TupleSpace.Eligible,
      TupleSpace.FilterKey;
    var r, owner := Resolve(t, key, m), Probe(t, key);
    TupleSpace.TssPicksSmallestPrecedence(t.groups, key);
    var f: nat :| TupleSpace.Owns(t.groups, owner, f, key);
    SomewhereIn(t.groups, config, owner);
    var h: nat :| h < |config| && config[h] == t.groups[owner];
    assert TupleSpace.Owns(config, h, f, key);
    assert ReportsGroup(config, key, m, r, h);
  }

  /** The tuple-space table comes first: if some stored entry has the packet's key, the answer is the group of
      the first such entry, whatever the ACL says; otherwise it is the ACL's. */
  lemma TupleSpaceComesFirst(t: Rules, key: FlowKey, m: Metadata, e: nat)
    requires forall i :: 0 <= i < |t.stored| ==>
             t.stored[i].group < |t.groups| && t.stored[i].group != TupleSpace.NO_HIT
    requires e <= |t.stored| && forall i :: 0 <= i < e ==> t.stored[i].key != key
    ensures e < |t.stored| && t.stored[e].key == key ==> Reports(Resolve(t, key, m), t.groups[t.stored[e].group], "")
    ensures e == |t.stored| ==> Resolve(t, key, m) == Alone(t, m)
  {
    hide FirstHit, TupleSpace.FirstOwner;
    if e == |t.stored| {
      TupleSpace.NoOwner(t.stored, key);
    } else if t.stored[e].key == key {
      TupleSpace.FirstOwnerAt(t.stored, key, e);
    }
  }

  /** In a burst the answer is the packet's own, or none. */
  lemma OutcomeIsOwnOrNone(t: Rules, b: Burst, p: nat)
    requires BurstOk(b) && p < |b.metadata|
    ensures Outcome(t, b, p) == Resolve(t, b.keys[p], b.metadata[p]) || Outcome(t, b, p) == MISS
  {
    hide FirstHit, AclCandidates, Probe, ResultForCategory;
  }

  // ---------------------------------------------------------------- the phases

  ghost predicate FlowMissBefore(b: Burst, n: nat, p: nat)
    requires n <= |b.places|
  {
    exists i :: 0 <= i < n && b.places[i] == Parsed(p) && p < |b.cached| && !b.cached[p]
  }

  /** What the first phase leaves for parsed packet `p` after `n` received packets. */
  ghost function Probed(t: Rules, b: Burst, n: nat, p: nat): Classification
    requires BurstOk(b) && n <= |b.places| && p < |b.metadata|
  {
    if FlowMissBefore(b, n, p) && Probe(t, b.keys[p]) != TupleSpace.NO_HIT
       then ResultForCategory(t.groups, Probe(t, b.keys[p])) else MISS
  }

  lemma ProbedNext(t: Rules, b: Burst, i: nat, p: nat)
    requires BurstOk(b) && i < |b.places| && p < |b.metadata|
    ensures Probed(t, b, 0, p) == MISS
    ensures Probed(t, b, i + 1, p) ==
            if b.places[i] == Parsed(p) && !b.cached[p] && Probe(t, b.keys[p]) != TupleSpace.NO_HIT
            then ResultForCategory(t.groups, Probe(t, b.keys[p])) else Probed(t, b, i, p)
  {
    hide Probe, ResultForCategory;
  }

  /** First phase: probe the tuple-space table for every flow miss and gather the rest. */
  method ProbePhase(t: Rules, b: Burst, table: array<TupleSpace.Entry>, size: nat, hash: FlowKey -> U32,
                    matches: array<Classification>)
    returns (misses: seq<nat>)
    requires BurstOk(b) && matches.Length == MAX_BURST
    requires forall p :: 0 <= p < MAX_BURST ==> matches[p] == MISS
    requires table.Length == TupleSpace.CAPACITY && TupleSpace.Represents(table[..], hash, t.stored) &&
             size == |t.stored|
    modifies matches
    ensures misses == Misses(t, b, |b.places|)
    ensures forall p :: 0 <= p < |b.metadata| ==> matches[p] == Probed(t, b, |b.places|, p)
  {
    hide ResultForCategory, Probed, TupleSpace.Represents, TupleSpace.FirstOwner;
    misses := [];
    forall p | 0 <= p < |b.metadata| ensures Probed(t, b, 0, p) == MISS {
      ProbedNothing(t, b, p);
    }
    var i := 0;
    while i < |b.places|
      invariant 0 <= i <= |b.places| && table[..] == old(table[..])
      invariant misses == Misses(t, b, i)
      invariant forall p :: 0 <= p < |b.metadata| ==> matches[p] == Probed(t, b, i, p)
    {
      forall p | 0 <= p < |b.metadata|
        ensures Probed(t, b, i + 1, p) ==
                if b.places[i] == Parsed(p) && !b.cached[p] && Probe(t, b.keys[p]) != TupleSpace.NO_HIT
                then ResultForCategory(t.groups, Probe(t, b.keys[p])) else Probed(t, b, i, p)
      {
        ProbedNext(t, b, i, p);
      }
      if b.places[i].Parsed? && !b.cached[b.places[i].index] {
        var p := b.places[i].index;
        var hit := TupleSpace.ProbeTss(table, size, hash, b.keys[p], t.stored);
        if hit != TupleSpace.NO_HIT {
          matches[p] := ResultForCategory(t.groups, hit);
        } else {
          misses := misses + [p];
        }
      }
      i := i + 1;
    }
  }

  lemma ProbedNothing(t: Rules, b: Burst, p: nat)
    requires BurstOk(b) && p < |b.metadata|
    ensures Probed(t, b, 0, p) == MISS
  {}

  /** Second phase: drop the misses the prefilter rules out. */
  method FilterPhase(t: Rules, metadata: seq<Metadata>, misses: seq<nat>) returns (candidates: seq<nat>)
    requires |misses| <= MAX_BURST && forall k :: 0 <= k < |misses| ==> misses[k] < |metadata|
    ensures candidates == Candidates(t, metadata, misses, |misses|)
  {
    hide MemberFilter.Skips;
    var packets := seq(|misses|, k requires 0 <= k < |misses| => metadata[misses[k]]);
    var skip := new bool[MAX_BURST](_ => false);
    MemberFilter.MemberFilterBulk(t.prefilter, packets, skip);
    candidates := [];
    var k := 0;
    while k < |misses|
      invariant 0 <= k <= |misses|
      invariant candidates == Candidates(t, metadata, misses, k)
    {
      assert skip[k] == !Kept(t, metadata[misses[k]], k);
      if !skip[k] {
        candidates := candidates + [misses[k]];
      }
      k := k + 1;
    }
  }

  /** Write the results of the candidates back to their places. */
  method Scatter(candidates: seq<nat>, answers: seq<Classification>, n: nat, matches: array<Classification>)
    requires |answers| == |candidates| && matches.Length == MAX_BURST && n <= MAX_BURST && Distinct(candidates)
    requires forall k :: 0 <= k < |candidates| ==> candidates[k] < n
    modifies matches
    ensures forall j :: 0 <= j < |candidates| ==> matches[candidates[j]] == answers[j]
    ensures forall p :: 0 <= p < n && p !in candidates ==> matches[p] == old(matches[p])
  {
    var k := 0;
    while k < |candidates|
      invariant 0 <= k <= |candidates|
      invariant forall j :: 0 <= j < k ==> matches[candidates[j]] == answers[j]
      invariant forall p :: 0 <= p < n && p !in candidates ==> matches[p] == old(matches[p])
    {
      matches[candidates[k]] := answers[k];
      k := k + 1;
    }
  }

  /** Match the candidates in bulk, into a buffer that starts out with no match. */
  method MatchCandidates(t: Rules, metadata: seq<Metadata>, candidates: seq<nat>) returns (answers: seq<Classification>)
    requires |candidates| <= MAX_BURST
    requires forall k :: 0 <= k < |candidates| ==> candidates[k] < |metadata|
    ensures |answers| == |candidates|
    ensures forall k :: 0 <= k < |candidates| ==>
              answers[k] == if k < BULK_MAX then FirstHit(t.groups, t.chunks, metadata[candidates[k]], 0) else MISS
  {
    hide FirstHit;
    var packets := seq(|candidates|, k requires 0 <= k < |candidates| => metadata[candidates[k]]);
    var results := new Classification[MAX_BURST](_ => MISS);
    MatchBulk(t.groups, t.chunks, packets, results);
    if t.chunks == [] {
      forall m ensures FirstHit(t.groups, t.chunks, m, 0) == MISS {
        EndOfWalk(t.groups, t.chunks, m);
      }
    }
    answers := results[..|candidates|];
  }

  /** Third phase: match the candidates in bulk and scatter the results. */
  method AclPhase(t: Rules, metadata: seq<Metadata>, candidates: seq<nat>, matches: array<Classification>)
    requires |metadata| <= MAX_BURST && |candidates| <= MAX_BURST && matches.Length == MAX_BURST && Distinct(candidates)
    requires forall k :: 0 <= k < |candidates| ==> candidates[k] < |metadata|
    requires forall k :: 0 <= k < |candidates| ==> matches[candidates[k]] == MISS
    modifies matches
    ensures forall p :: 0 <= p < |metadata| ==>
              matches[p] == if p in candidates[..Min(|candidates|, BULK_MAX)]
                            then FirstHit(t.groups, t.chunks, metadata[p], 0) else old(matches[p])
  {
    hide FirstHit;
    var answers := MatchCandidates(t, metadata, candidates);
    Scatter(candidates, answers, |metadata|, matches);
    forall p | 0 <= p < |metadata|
      ensures matches[p] == if p in candidates[..Min(|candidates|, BULK_MAX)]
                            then FirstHit(t.groups, t.chunks, metadata[p], 0) else old(matches[p])
    {
      if p in candidates {
        var j :| 0 <= j < |candidates| && candidates[j] == p;
        assert old(matches[candidates[j]]) == MISS;
        InPrefix(candidates, j);
      }
    }
  }

  lemma InPrefix(candidates: seq<nat>, j: nat)
    requires Distinct(candidates) && j < |candidates|
    ensures j < BULK_MAX <==> candidates[j] in candidates[..Min(|candidates|, BULK_MAX)]
  {
    var head := candidates[..Min(|candidates|, BULK_MAX)];
    assert j < BULK_MAX ==> head[j] == candidates[j];
  }

  /** The batched resolution of a burst. */
  method ResolveBurst(t: Rules, b: Burst, table: array<TupleSpace.Entry>, size: nat, hash: FlowKey -> U32)
    returns (matches: array<Classification>)
    requires BurstOk(b)
    requires table.Length == TupleSpace.CAPACITY && TupleSpace.Represents(table[..], hash, t.stored) &&
             size == |t.stored|
    ensures fresh(matches) && matches.Length == MAX_BURST
    ensures forall p :: 0 <= p < |b.metadata| && FlowMiss(b, p) ==> matches[p] == Outcome(t, b, p)
  {
    hide FirstHit, ResultForCategory, Misses, Candidates, Probe, TupleSpace.Represents, NeedsAcl, Kept;
    matches := new Classification[MAX_BURST](_ => MISS);
    var misses := ProbePhase(t, b, table, size, hash, matches);
    MissesAre(t, b, |b.places|);
    var candidates := FilterPhase(t, b.metadata, misses);
    CandidatesAre(t, b.metadata, misses, |misses|);
    forall k | 0 <= k < |candidates|
      ensures candidates[k] < |b.metadata| && Probe(t, b.keys[candidates[k]]) == TupleSpace.NO_HIT
    {
      CandidateIsFlowMiss(t, b, candidates[k]);
    }
    AclPhase(t, b.metadata, candidates, matches);
  }
}
