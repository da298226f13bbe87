/** Distribution of the configured filter groups over parsing workers. */
module ParsePartition {
  import opened Machine

  datatype Span = Span(start: nat, end: nat)

  function Sum(counts: seq<nat>, a: nat, b: nat): nat
    requires a <= b <= |counts|
  {
    if a == b then 0 else Sum(counts, a, b - 1) + counts[b - 1]
  }

  lemma {:induction false} SumSplits(counts: seq<nat>, a: nat, b: nat, c: nat)
    requires a <= b <= c <= |counts|
    ensures Sum(counts, a, c) == Sum(counts, a, b) + Sum(counts, b, c)
  {
    if b < c {
      SumSplits(counts, a, b, c - 1);
    }
  }

  /** An equal share of the rules from `start` on for `workers` workers, rounded up. */
  function Share(counts: seq<nat>, start: nat, workers: nat): nat
    requires start <= |counts| && workers > 0
  {
    (Sum(counts, start, |counts|) + workers - 1) / workers
  }

  /** The spans follow one another from group 0 and none is empty. */
  predicate Consecutive(spans: seq<Span>) {
    && (forall i :: 0 <= i < |spans| ==> spans[i].start < spans[i].end)
    && (forall i :: 0 < i < |spans| ==> spans[i].start == spans[i - 1].end)
    && (spans != [] ==> spans[0].start == 0)
  }

  /** A span stays within its share, or holds rules in its last group only. */
  predicate Fair(counts: seq<nat>, s: Span, workers: nat) {
    && s.start < s.end <= |counts| && workers > 0
    && (Sum(counts, s.start, s.end) <= Share(counts, s.start, workers) || Sum(counts, s.start, s.end - 1) == 0)
    && (s.end == |counts| - (workers - 1)
        || (s.end < |counts| && Sum(counts, s.start, s.end) > 0
            && Sum(counts, s.start, s.end + 1) > Share(counts, s.start, workers)))
  }

  /** Where the groups covered so far end. */
  function End(spans: seq<Span>): nat {
    if spans == [] then 0 else spans[|spans| - 1].end
  }

  /** A share is the rules left divided among the workers left, rounded up. */
  lemma ShareIsCeiling(counts: seq<nat>, start: nat, workers: nat)
    requires start <= |counts| && workers > 0
    ensures var left, share := Sum(counts, start, |counts|), Share(counts, start, workers);
            workers * share >= left && (share > 0 ==> workers * (share - 1) < left)
  {
    var left, share := Sum(counts, start, |counts|), Share(counts, start, workers);
    var r := (left + workers - 1) % workers;
    assert left + workers - 1 == workers * share + r && 0 <= r < workers;
  }

  lemma LastShare(counts: seq<nat>, start: nat)
    requires start <= |counts|
    ensures Share(counts, start, 1) == Sum(counts, start, |counts|)
  {}

  /** One worker's turn: take groups while they fit its share, at least one, leaving one for every later worker; the
      last worker takes all that are left. */
  method TakeSpan(counts: seq<nat>, start: nat, left: nat, remaining: nat) returns (end: nat, taken: nat)
    requires left >= 1 && start + left <= |counts| && remaining == Sum(counts, start, |counts|)
    ensures start < end <= |counts| - (left - 1) && (left == 1 ==> end == |counts|)
    ensures taken == Sum(counts, start, end) && taken <= remaining && remaining - taken == Sum(counts, end, |counts|)
    ensures Fair(counts, Span(start, end), left)
  {
    var maxEnd := |counts| - (left - 1);
    var target := (remaining + left - 1) / left;
    assert target == Share(counts, start, left);
    LastShare(counts, start);
    hide Share;
    end, taken := start, 0;
    while end < maxEnd && (taken == 0 || taken + counts[end] <= target)
      invariant start <= end <= maxEnd
      invariant taken == Sum(counts, start, end)
      invariant end == start || taken <= target || Sum(counts, start, end - 1) == 0
      decreases maxEnd - end
    {
      taken := taken + counts[end];
      end := end + 1;
    }
    SumSplits(counts, start, end, |counts|);
    if left == 1 && end < |counts| {
      SumSplits(counts, end, end + 1, |counts|);
      SumOne(counts, end);
    }
  }

  lemma SumOne(counts: seq<nat>, a: nat)
    requires a < |counts|
    ensures Sum(counts, a, a + 1) == counts[a]
  {}

  lemma NoSpans()
    ensures Consecutive([])
  {}

  lemma OneMoreSpan(spans: seq<Span>, s: Span)
    requires Consecutive(spans) && s.start == End(spans) && s.start < s.end
    ensures Consecutive(spans + [s])
  {}

  /** For any group sizes and worker count, the spans partition the groups: one non-empty span per worker,
      following one another, covering every group; each is fair. The rules left never underflow, and the
      first group of a span is always taken by the inner loop. */
  method SplitByRules(counts: seq<nat>, threads: nat) returns (spans: seq<Span>)
    requires threads >= 1
    ensures |spans| == Min(threads, |counts|)
    ensures Consecutive(spans) && End(spans) == |counts|
    ensures forall i :: 0 <= i < |spans| ==> Fair(counts, spans[i], |spans| - i)
  {
    hide Fair, Consecutive;
    NoSpans();
    var workers := Min(threads, |counts|);
    var remaining := 0;
    var g := 0;
    while g < |counts|
      invariant 0 <= g <= |counts| && remaining == Sum(counts, 0, g)
    {
      remaining := remaining + counts[g];
      g := g + 1;
    }
    hide Sum;
    spans := [];
    var next := 0;
    var worker := 0;
    while worker < workers
      invariant 0 <= worker <= workers && |spans| == worker
      invariant Consecutive(spans) && next == End(spans)
      invariant next <= |counts| - (workers - worker) && (worker == workers ==> next == |counts|)
      invariant remaining == Sum(counts, next, |counts|)
      invariant forall i :: 0 <= i < |spans| ==> Fair(counts, spans[i], workers - i)
    {
      var end, taken := TakeSpan(counts, next, workers - worker, remaining);
      OneMoreSpan(spans, Span(next, end));
      spans := spans + [Span(next, end)];
      remaining := remaining - taken;
      next := end;
      worker := worker + 1;
    }
  }

  /** Hence every group is parsed by exactly one worker. */
  lemma EveryGroupOnce(spans: seq<Span>, n: nat, g: nat)
    requires Consecutive(spans) && End(spans) == n && g < n
    ensures exists i :: 0 <= i < |spans| && spans[i].start <= g < spans[i].end
    ensures forall i, j :: 0 <= i < j < |spans| ==>
            !(spans[i].start <= g < spans[i].end && spans[j].start <= g < spans[j].end)
  {
    var i := Holder(spans, |spans|, g);
    forall i, j | 0 <= i < j < |spans| ensures spans[i].end <= spans[j].start {
      Ordered(spans, i, j);
    }
  }

  lemma {:induction false} Holder(spans: seq<Span>, n: nat, g: nat) returns (i: nat)
    requires Consecutive(spans) && 0 < n <= |spans| && g < spans[n - 1].end
    ensures i < n && spans[i].start <= g < spans[i].end
    decreases n
  {
    if g >= spans[n - 1].start {
      i := n - 1;
    } else {
      i := Holder(spans, n - 1, g);
    }
  }

  lemma {:induction false} Ordered(spans: seq<Span>, i: nat, j: nat)
    requires Consecutive(spans) && i < j < |spans|
    ensures spans[i].end <= spans[j].start
    decreases j
  {
    if i < j - 1 {
      Ordered(spans, i, j - 1);
    }
  }
}
