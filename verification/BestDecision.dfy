/**
 Choosing among the decisions of the affected bundles: the generic reference loop of
 `tools/probe_fastpath_latency.cpp` and the fast loop of
 `tools/probe_market_event_to_execution_plan_latency.cpp`.  What is decided for each spec is
 given; the loops only choose.
 */
module BestDecision {
  import opened Options
  import opened Sequences

  /** `details` stands for the parts of a decision the loops never look at. */
  datatype Decision = Decision(bundleId: nat, edge: int, details: string)

  /** More edge, or as much with a lower bundle id. */
  predicate Beats(a: Decision, b: Decision) { a.edge > b.edge || (a.edge == b.edge && a.bundleId < b.bundleId) }

  predicate SameRank(a: Decision, b: Decision) { a.edge == b.edge && a.bundleId == b.bundleId }

  /** `d` is among the decisions and none of them beats it; the order they came in plays no part. */
  ghost predicate IsBest(all: multiset<Decision>, d: Decision) { d in all && forall e | e in all :: !Beats(e, d) }

  /** Position `k` holds a best decision, and every earlier one is beaten by it. */
  ghost predicate IsFirstBest(s: seq<Decision>, k: nat) {
    && k < |s|
    && (forall i | 0 <= i < |s| :: !Beats(s[i], s[k]))
    && (forall i | 0 <= i < k :: Beats(s[k], s[i]))
  }

  /** No edge is greater; among equal edges no bundle id is smaller; and an earlier decision is strictly worse. */
  lemma FirstBestMeaning(s: seq<Decision>, k: nat)
    ensures IsFirstBest(s, k) <==>
            && k < |s|
            && (forall i | 0 <= i < |s| :: s[i].edge <= s[k].edge)
            && (forall i | 0 <= i < |s| && s[i].edge == s[k].edge :: s[i].bundleId >= s[k].bundleId)
            && (forall i | 0 <= i < k && s[i].edge == s[k].edge :: s[i].bundleId > s[k].bundleId)
  {
    if IsFirstBest(s, k) {
      forall i | 0 <= i < |s| ensures s[i].edge <= s[k].edge {
        assert !Beats(s[i], s[k]);
      }
    }
  }

  lemma FirstBestIsBest(s: seq<Decision>, k: nat)
    requires IsFirstBest(s, k)
    ensures IsBest(multiset(s), s[k])
  {
    assert s[k] in s;
    forall e | e in multiset(s) ensures !Beats(e, s[k]) {
      assert e in s;
    }
  }

  // The generic loop.

  datatype Candidate = Candidate(fallbackRequired: bool, decision: Decision)

  function DecisionsOf(cs: seq<Candidate>): (ds: seq<Decision>)
    ensures |ds| == |cs| && forall i | 0 <= i < |cs| :: ds[i] == cs[i].decision
  {
    seq(|cs|, i requires 0 <= i < |cs| => cs[i].decision)
  }

  predicate IsFirstFallback(cs: seq<Candidate>, k: nat) {
    k < |cs| && cs[k].fallbackRequired && forall i | 0 <= i < k :: !cs[i].fallbackRequired
  }

  ghost predicate NoFallback(cs: seq<Candidate>) { forall i | 0 <= i < |cs| :: !cs[i].fallbackRequired }

  /** The first candidate that needs the fallback, else the first best; nothing only if there is nothing. */
  method BestGeneric(cs: seq<Candidate>) returns (best: Option<Candidate>, ghost at: nat)
    ensures best.None? <==> cs == []
    ensures best.Some? ==> at < |cs| && best.value == cs[at]
    ensures !NoFallback(cs) ==> IsFirstFallback(cs, at)
    ensures best.Some? && NoFallback(cs) ==> IsFirstBest(DecisionsOf(cs), at)
  {
    best, at := None, 0;
    for i := 0 to |cs|
      invariant forall j | 0 <= j < i :: !cs[j].fallbackRequired
      invariant best.None? <==> i == 0
      invariant best.Some? ==> at < i && best.value == cs[at]
      invariant best.Some? ==> forall j | 0 <= j < i :: !Beats(cs[j].decision, best.value.decision)
      invariant best.Some? ==> forall j | 0 <= j < at :: Beats(best.value.decision, cs[j].decision)
    {
      var c := cs[i];
      if c.fallbackRequired { return Some(c), i; }
      if best.None? || c.decision.edge > best.value.decision.edge
         || (c.decision.edge == best.value.decision.edge && c.decision.bundleId < best.value.decision.bundleId) {
        best, at := Some(c), i;
      }
    }
  }

  // The fast loop.

  /** What comes of one spec: its bundle is unknown, the engine refuses, or it decides. */
  datatype Attempt = NoBundle | Refused | Decided(decision: Decision)

  /** The decisions among the first `n` attempts, in order. */
  function Decisions(attempts: seq<Attempt>, n: nat): seq<Decision>
    requires n <= |attempts|
  {
    if n == 0 then []
    else if attempts[n - 1].Decided? then Decisions(attempts, n - 1) + [attempts[n - 1].decision]
    else Decisions(attempts, n - 1)
  }

  /** The first best of what was decided, with the position of its spec. */
  method BestFast(attempts: seq<Attempt>) returns (best: Option<Decision>, bestSpec: nat, ghost at: nat)
    ensures var ds := Decisions(attempts, |attempts|);
            && (best.None? <==> ds == [])
            && (best.Some? ==> IsFirstBest(ds, at) && best.value == ds[at])
    ensures best.Some? ==> bestSpec < |attempts| && attempts[bestSpec] == Decided(best.value)
  {
    best, bestSpec, at := None, 0, 0;
    for i := 0 to |attempts|
      invariant best.None? <==> Decisions(attempts, i) == []
      invariant best.Some? ==> IsFirstBest(Decisions(attempts, i), at) && best.value == Decisions(attempts, i)[at]
      invariant best.Some? ==> bestSpec < i && attempts[bestSpec] == Decided(best.value)
    {
      if attempts[i].Decided? {
        var d := attempts[i].decision;
        ghost var before := Decisions(attempts, i);
        assert Decisions(attempts, i + 1) == before + [d];
        if best.None? || d.edge > best.value.edge
           || (d.edge == best.value.edge && d.bundleId < best.value.bundleId) {
          NewBest(before, best, at, d);
          best, bestSpec, at := Some(d), i, |before|;
        } else {
          OldBest(before, at, d);
        }
      }
    }
  }

  lemma NewBest(before: seq<Decision>, best: Option<Decision>, at: nat, d: Decision)
    requires best.None? ==> before == []
    requires best.Some? ==> IsFirstBest(before, at) && best.value == before[at] && Beats(d, best.value)
    ensures IsFirstBest(before + [d], |before|)
  {
    forall i | 0 <= i < |before| ensures Beats(d, before[i]) {
      assert !Beats(before[i], before[at]);
    }
  }

  lemma OldBest(before: seq<Decision>, at: nat, d: Decision)
    requires IsFirstBest(before, at) && !Beats(d, before[at])
    ensures IsFirstBest(before + [d], at)
  {
  }

  // Order.

  ghost predicate DistinctIds(all: multiset<Decision>) {
    forall d, e | d in all && e in all && d.bundleId == e.bundleId :: d == e
  }

  /** All best decisions have one rank; with distinct bundle ids there is only one. */
  lemma BestIsUnique(all: multiset<Decision>, d: Decision, e: Decision)
    requires IsBest(all, d) && IsBest(all, e)
    ensures SameRank(d, e)
    ensures DistinctIds(all) ==> d == e
  {
    assert !Beats(d, e) && !Beats(e, d);
  }

  /** On the same decisions in any two orders, the loops return decisions of one rank, and the same one if ids differ. */
  lemma OrderIrrelevant(s: seq<Decision>, t: seq<Decision>, j: nat, k: nat)
    requires multiset(s) == multiset(t) && IsFirstBest(s, j) && IsFirstBest(t, k)
    ensures SameRank(s[j], t[k])
    ensures DistinctIds(multiset(s)) ==> s[j] == t[k]
  {
    FirstBestIsBest(s, j);
    FirstBestIsBest(t, k);
    BestIsUnique(multiset(s), s[j], t[k]);
  }

  /** Every best decision is returned for some order. */
  lemma EveryBestCanWin(s: seq<Decision>, i: nat)
    requires i < |s| && IsBest(multiset(s), s[i])
    ensures var t := MovedToFront(s, i);
            multiset(t) == multiset(s) && IsFirstBest(t, 0) && t[0] == s[i]
  {
    var t := MovedToFront(s, i);
    MovedIsReordered(s, i);
    forall j | 0 <= j < |t| ensures !Beats(t[j], t[0]) {
      assert t[j] in multiset(t);
    }
  }

  /** `d` is what the loops return for these decisions in some order. */
  ghost predicate IsReturned(all: multiset<Decision>, d: Decision) {
    exists t: seq<Decision>, k: nat :: multiset(t) == all && IsFirstBest(t, k) && d == t[k]
  }

  /** What some order returns is exactly what is best. */
  lemma ReturnedExactlyWhenBest(s: seq<Decision>, d: Decision)
    ensures IsReturned(multiset(s), d) <==> IsBest(multiset(s), d)
  {
    if t: seq<Decision>, k: nat :| multiset(t) == multiset(s) && IsFirstBest(t, k) && d == t[k] {
      FirstBestIsBest(t, k);
    }
    if IsBest(multiset(s), d) {
      assert d in s;
      var i: nat :| i < |s| && s[i] == d;
      EveryBestCanWin(s, i);
    }
  }

  /** The result is the same for every order exactly when all best decisions are equal. */
  lemma OrderFreeExactly(s: seq<Decision>)
    ensures (forall d, e | IsReturned(multiset(s), d) && IsReturned(multiset(s), e) :: d == e) <==>
            (forall d, e | IsBest(multiset(s), d) && IsBest(multiset(s), e) :: d == e)
  {
    hide IsReturned, IsBest;
    forall d ensures IsReturned(multiset(s), d) <==> IsBest(multiset(s), d) {
      ReturnedExactlyWhenBest(s, d);
    }
  }

  // The two loops together.

  /** What the generic loop proposes, in whatever order, is what the fast loop decides. */
  ghost predicate SameDecisions(cs: seq<Candidate>, attempts: seq<Attempt>) {
    NoFallback(cs) && multiset(DecisionsOf(cs)) == multiset(Decisions(attempts, |attempts|))
  }

  /** With no fallback and distinct bundle ids, what the two loops return is the same decision, or nothing for both. */
  lemma LoopsAgree(cs: seq<Candidate>, attempts: seq<Attempt>, at: nat, there: nat)
    requires SameDecisions(cs, attempts) && DistinctIds(multiset(DecisionsOf(cs)))
    requires cs != [] ==> IsFirstBest(DecisionsOf(cs), at)
    requires Decisions(attempts, |attempts|) != [] ==> IsFirstBest(Decisions(attempts, |attempts|), there)
    ensures cs == [] <==> Decisions(attempts, |attempts|) == []
    ensures cs != [] ==> cs[at].decision == Decisions(attempts, |attempts|)[there]
  {
    var s, t := DecisionsOf(cs), Decisions(attempts, |attempts|);
    assert |s| == |multiset(s)| && |t| == |multiset(t)|;
    if cs != [] { OrderIrrelevant(s, t, at, there); }
  }
}
