/** Static links from SPI groups to DPI filter groups. */
module DpiLinks {
  import opened Machine
  import opened Packet
  import opened RuleMatching
  import opened BurstResolution
  import ReloadProtocol

  /** The first filter of the DPI table that belongs to group `name`; an empty name is never found. */
  method FindByFilterGroup(filterGroups: seq<string>, name: string) returns (r: Option<nat>)
    ensures r.Some? <==> name != "" && name in filterGroups
    ensures r.Some? ==> IsFirst(filterGroups, name, r.value)
  {
    if name == "" {
      return None;
    }
    var i := 0;
    while i < |filterGroups|
      invariant 0 <= i <= |filterGroups|
      invariant forall j :: 0 <= j < i ==> filterGroups[j] != name
    {
      if filterGroups[i] == name {
        return Some(i);
      }
      i := i + 1;
    }
    r := None;
  }

  predicate IsFirst(filterGroups: seq<string>, name: string, i: nat) {
    i < |filterGroups| && filterGroups[i] == name && forall j :: 0 <= j < i ==> filterGroups[j] != name
  }

  /** A group after its link has been resolved against a DPI table. */
  ghost predicate Linked(before: Group, filterGroups: seq<string>, after: Group) {
    if before.linkName == "" then after == before
    else IsFirst(filterGroups, before.linkName, after.link) && after == before.(link := after.link, linkName := "")
  }

  predicate Linkable(group: Group, filterGroups: seq<string>) {
    group.linkName == "" || group.linkName in filterGroups
  }

  /** Resolve the links in place, group by group. Succeeds exactly when every named DPI group exists; a
      failure leaves the groups before the first unresolvable one linked and the rest untouched. */
  method ResolveDpiLinks(groups: array<Group>, filterGroups: seq<string>) returns (failed: Option<nat>)
    requires |filterGroups| < TWO_32
    modifies groups
    ensures failed.None? <==> forall g :: 0 <= g < groups.Length ==> Linkable(old(groups[g]), filterGroups)
    ensures failed.Some? ==> failed.value < groups.Length && !Linkable(old(groups[failed.value]), filterGroups)
    ensures forall g :: 0 <= g < groups.Length ==>
              if failed.None? || g < failed.value then Linked(old(groups[g]), filterGroups, groups[g])
              else groups[g] == old(groups[g])
  {
    var g := 0;
    while g < groups.Length
      invariant 0 <= g <= groups.Length
      invariant forall h :: 0 <= h < g ==>
                Linkable(old(groups[h]), filterGroups) && Linked(old(groups[h]), filterGroups, groups[h])
      invariant forall h :: g <= h < groups.Length ==> groups[h] == old(groups[h])
    {
      if groups[g].linkName != "" {
        var index := FindByFilterGroup(filterGroups, groups[g].linkName);
        if index.None? {
          return Some(g);
        }
        groups[g] := groups[g].(link := index.value, linkName := "");
      }
      g := g + 1;
    }
    failed := None;
  }

  /** As compiled: no link yet. */
  ghost predicate Unlinked(groups: seq<Group>) {
    forall g :: 0 <= g < |groups| ==> groups[g].link == NO_LINK
  }

  ghost predicate AllLinked(before: seq<Group>, filterGroups: seq<string>, after: seq<Group>) {
    |after| == |before| && forall g :: 0 <= g < |before| ==> Linked(before[g], filterGroups, after[g])
  }

  /** The reported link is absent, or it is below the DPI filter count and names the DPI group configured for an SPI
      group with the reported name and precedence. */
  ghost predicate LinkConfigured(before: seq<Group>, filterGroups: seq<string>, r: Classification) {
    r.link != NO_LINK ==>
      && r.link < |filterGroups|
      && exists g: nat :: g < |before| && before[g].linkName == filterGroups[r.link] && r.groupName == before[g].name
                          && r.precedence == before[g].precedence
  }

  lemma HitConfigured(before: seq<Group>, filterGroups: seq<string>, after: seq<Group>, g: nat, r: Classification)
    requires Unlinked(before) && AllLinked(before, filterGroups, after) && g < |after| &&
             Reports(r, after[g], r.filterName)
    ensures LinkConfigured(before, filterGroups, r)
  {
    assert Linked(before[g], filterGroups, after[g]);
  }

  lemma AloneConfigured(before: seq<Group>, filterGroups: seq<string>, t: Rules, m: Metadata)
    requires Unlinked(before) && AllLinked(before, filterGroups, t.groups) && RulesOk(t)
    ensures LinkConfigured(before, filterGroups, Alone(t, m))
  {
    hide Encodable, ChunksOk, FirstHit, FilterMatches, LinkConfigured, Linked;
    FirstHitIsBest(t.groups, t.chunks, m, 0);
    var r := Alone(t, m);
    if r.matched {
      var g: nat, f: nat :| BestFrom(t.groups, t.chunks, m, 0, g, f, r);
      HitConfigured(before, filterGroups, t.groups, g, r);
    } else {
      MissConfigured(before, filterGroups);
    }
  }

  lemma MissConfigured(before: seq<Group>, filterGroups: seq<string>)
    ensures LinkConfigured(before, filterGroups, MISS)
  {}

  /** What a resolved link means at run time: however a packet is resolved, alone or in a burst, by the
      tuple-space table or the ACL, the reported link is absent or the configured one. */
  lemma ReportedLinksAreConfigured(before: seq<Group>, filterGroups: seq<string>, t: Rules, key: FlowKey, m: Metadata)
    requires Unlinked(before) && AllLinked(before, filterGroups, t.groups) && RulesOk(t)
    ensures LinkConfigured(before, filterGroups, Resolve(t, key, m))
    ensures forall b: Burst, p: nat | BurstOk(b) && p < |b.metadata| ::
              LinkConfigured(before, filterGroups, Outcome(t, b, p))
  {
    hide LinkConfigured, RulesOk, AclCandidates, Probe, FirstHit, Linked, AllLinked;
    MissConfigured(before, filterGroups);
    forall category: U32 ensures LinkConfigured(before, filterGroups, ResultForCategory(t.groups, category)) {
      if category < |t.groups| {
        HitConfigured(before, filterGroups, t.groups, category, ResultForCategory(t.groups, category));
      }
    }
    forall m' ensures LinkConfigured(before, filterGroups, FirstHit(t.groups, t.chunks, m', 0)) {
      AloneConfigured(before, filterGroups, t, m');
    }
  }

  /** One configuration: its SPI groups as compiled, its DPI filter groups unless DPI is off, and the
      published rules. */
  datatype Configuration = Configuration(before: seq<Group>, dpi: Option<seq<string>>, rules: Rules)

  ghost predicate Compiled(c: Configuration) {
    && Unlinked(c.before) && RulesOk(c.rules)
    && if c.dpi.Some? then AllLinked(c.before, c.dpi.value, c.rules.groups) else c.rules.groups == c.before
  }

  lemma UnlinkedReportsNone(c: Configuration, key: FlowKey, m: Metadata)
    requires Compiled(c) && c.dpi.None?
    ensures Resolve(c.rules, key, m).link == NO_LINK
  {
    hide Encodable, ChunksOk, FirstHit, FilterMatches, Probe;
    FirstHitIsBest(c.rules.groups, c.rules.chunks, m, 0);
    var r := Alone(c.rules, m);
    if r.matched {
      var g: nat, f: nat :| BestFrom(c.rules.groups, c.rules.chunks, m, 0, g, f, r);
    }
  }

  /** Links under reload. In every interleaving with two or more workers and a settled counter, a burst that
      has loaded an SPI and a DPI table resolves every packet to no link, or to one that is below the filter
      count of the DPI table it has loaded and names the configured group. */
  lemma LinksHoldInEveryBurst(run: seq<ReloadProtocol.System>, n: nat, i: nat, configs: nat -> Configuration,
                              key: FlowKey, m: Metadata)
    requires ReloadProtocol.IsRun(run) && ReloadProtocol.RaisedWhenSettled(run) && ReloadProtocol.Initial(run[0])
    requires |run[0].workers| >= 2 && n < |run| && i < |run[n].workers| && run[n].workers[i].InBurst?
    requires run[n].workers[i].spi.Some? && run[n].workers[i].dpi.Some? &&
             Compiled(configs(run[n].workers[i].spi.value))
    ensures var w := run[n].workers[i];
            var spi, dpi := configs(w.spi.value), configs(w.dpi.value);
            var r := Resolve(spi.rules, key, m);
            r.link != NO_LINK ==> dpi.dpi.Some? && LinkConfigured(dpi.before, dpi.dpi.value, r)
  {
    hide Resolve, LinkConfigured, AllLinked, RulesOk, Unlinked;
    ReloadProtocol.ReloadIsSafe(run, n);
    var c := configs(run[n].workers[i].spi.value);
    if c.dpi.Some? {
      ReportedLinksAreConfigured(c.before, c.dpi.value, c.rules, key, m);
    } else {
      UnlinkedReportsNone(c, key, m);
    }
  }

  /** Resolving clears the names, so resolving again, against whatever table, succeeds and changes nothing: a link
      is only ever right for the DPI table it was first resolved against. */
  lemma LinksAreResolvedOnce(before: seq<Group>, filterGroups: seq<string>, after: seq<Group>, other: seq<string>,
                             again: seq<Group>)
    requires AllLinked(before, filterGroups, after)
    ensures forall g :: 0 <= g < |after| ==> Linkable(after[g], other)
    ensures AllLinked(after, other, again) ==> again == after
  {
    forall g | 0 <= g < |after| ensures after[g].linkName == "" {
      assert Linked(before[g], filterGroups, after[g]);
    }
    if AllLinked(after, other, again) {
      forall g | 0 <= g < |after| ensures again[g] == after[g] {
        assert Linked(after[g], other, again[g]);
      }
    }
  }
}
