/**
 The bounded list of slowest packets in `tools/bench_feed_decode_latency.cpp`: at most ten
 observations are kept, the smallest is replaced when a larger one comes, and the list is
 sorted after every observation.  It always equals sorting everything and taking ten.
 */
module SlowestPackets {

  /** An observation; `details` stands for the members the list never looks at. */
  datatype Observation = Observation(packetId: nat, details: string, totalNs: nat)

  const LIMIT := 10

  ghost predicate Descending(s: seq<Observation>) {
    forall i, j | 0 <= i < j < |s| :: s[i].totalNs >= s[j].totalNs
  }

  predicate IsFirstMin(s: seq<Observation>, k: nat) {
    && k < |s|
    && (forall i | 0 <= i < |s| :: s[k].totalNs <= s[i].totalNs)
    && (forall i | 0 <= i < k :: s[k].totalNs < s[i].totalNs)
  }

  /** The list before sorting: grown, or with its first smallest element replaced by a larger one. */
  ghost predicate Admitted(s: seq<Observation>, o: Observation, t: seq<Observation>) {
    if |s| < LIMIT then t == s + [o]
    else exists k: nat :: IsFirstMin(s, k) && t == if o.totalNs > s[k].totalNs then s[k := o] else s
  }

  /** One call: admit, then sort; the order of equal latencies is left open, as `std::sort` leaves it. */
  ghost predicate Recorded(s: seq<Observation>, o: Observation, t: seq<Observation>) {
    Descending(t) && exists u :: Admitted(s, o, u) && multiset(t) == multiset(u)
  }

  class BenchState {
    var slowest: seq<Observation>

    constructor ()
      ensures slowest == []
    {
      slowest := [];
    }

    method RecordSlowestPacket(o: Observation)
      modifies this
      ensures Recorded(old(slowest), o, slowest)
    {
      ghost var before := slowest;
      if |slowest| < LIMIT {
        slowest := slowest + [o];
      } else {
        var k := MinElement(slowest);
        if o.totalNs > slowest[k].totalNs {
          slowest := slowest[k := o];
        }
      }
      ghost var admitted := slowest;
      assert Admitted(before, o, admitted);
      slowest := SortDescending(slowest);
    }
  }

  /** `std::min_element`: the first of the smallest. */
  method MinElement(s: seq<Observation>) returns (k: nat)
    requires s != []
    ensures IsFirstMin(s, k)
  {
    k := 0;
    for i := 1 to |s|
      invariant k < i
      invariant forall j | 0 <= j < i :: s[k].totalNs <= s[j].totalNs
      invariant forall j | 0 <= j < k :: s[k].totalNs < s[j].totalNs
    {
      if s[i].totalNs < s[k].totalNs {
        k := i;
      }
    }
  }

  method SortDescending(s: seq<Observation>) returns (r: seq<Observation>)
    ensures Descending(r) && multiset(r) == multiset(s)
  {
    r := [];
    for i := 0 to |s|
      invariant Descending(r) && multiset(r) == multiset(s[..i])
    {
      assert s[..i + 1] == s[..i] + [s[i]];
      r := InsertDescending(r, s[i]);
    }
    assert s[..|s|] == s;
  }

  method InsertDescending(s: seq<Observation>, o: Observation) returns (r: seq<Observation>)
    requires Descending(s)
    ensures Descending(r) && multiset(r) == multiset(s) + multiset{o}
  {
    var k := 0;
    while k < |s| && s[k].totalNs >= o.totalNs
      invariant k <= |s| && forall j | 0 <= j < k :: s[j].totalNs >= o.totalNs
    {
      k := k + 1;
    }
    InsertedDescends(s, k, o);
    r := s[..k] + [o] + s[k..];
  }

  lemma InsertedDescends(s: seq<Observation>, k: nat, o: Observation)
    requires Descending(s) && k <= |s|
    requires forall j | 0 <= j < k :: s[j].totalNs >= o.totalNs
    requires k < |s| ==> s[k].totalNs < o.totalNs
    ensures var r := s[..k] + [o] + s[k..]; Descending(r) && multiset(r) == multiset(s) + multiset{o}
  {
    var r := s[..k] + [o] + s[k..];
    forall i, j | 0 <= i < j < |r| ensures r[i].totalNs >= r[j].totalNs {
      InsertedPair(s, k, o, i, j, r);
    }
    InsertedMultiset(s, k, o);
  }

  lemma InsertedMultiset(s: seq<Observation>, k: nat, o: Observation)
    requires k <= |s|
    ensures multiset(s[..k] + [o] + s[k..]) == multiset(s) + multiset{o}
  {
    assert s == s[..k] + s[k..];
  }

  lemma InsertedAt(s: seq<Observation>, k: nat, o: Observation, i: nat, r: seq<Observation>)
    requires k <= |s| && r == s[..k] + [o] + s[k..] && i < |r|
    ensures r[i] == if i < k then s[i] else if i == k then o else s[i - 1]
  {
  }

  lemma InsertedPair(s: seq<Observation>, k: nat, o: Observation, i: nat, j: nat, r: seq<Observation>)
    requires Descending(s) && k <= |s| && r == s[..k] + [o] + s[k..] && i < j < |r|
    requires forall m | 0 <= m < k :: s[m].totalNs >= o.totalNs
    requires k < |s| ==> s[k].totalNs < o.totalNs
    ensures r[i].totalNs >= r[j].totalNs
  {
    InsertedAt(s, k, o, i, r);
    InsertedAt(s, k, o, j, r);
    var m, n := if i < k then i else i - 1, if j <= k then j else j - 1;
    if i == k && k < n { assert s[k].totalNs >= s[n].totalNs; }
    if i != k && j != k && j < k { assert s[i].totalNs >= s[j].totalNs; }
    if i != k && j > k && m < n { assert s[m].totalNs >= s[n].totalNs; }
  }

  // ---- The latencies of a list, as a multiset ----

  function Bag(s: seq<Observation>): multiset<nat> {
    if s == [] then multiset{} else Bag(s[..|s| - 1]) + multiset{s[|s| - 1].totalNs}
  }

  function Without(s: seq<Observation>, j: nat): seq<Observation>
    requires j < |s|
  {
    s[..j] + s[j + 1..]
  }

  lemma WithoutMultiset(s: seq<Observation>, j: nat)
    requires j < |s|
    ensures multiset(s) == multiset(Without(s, j)) + multiset{s[j]} && |Without(s, j)| == |s| - 1
  {
    assert s == s[..j] + [s[j]] + s[j + 1..];
  }

  lemma BagSnoc(s: seq<Observation>, o: Observation)
    ensures Bag(s + [o]) == Bag(s) + multiset{o.totalNs}
  {
    assert (s + [o])[..|s|] == s;
  }

  lemma {:induction false} BagWithout(s: seq<Observation>, j: nat)
    requires j < |s|
    ensures Bag(s) == Bag(Without(s, j)) + multiset{s[j].totalNs}
    decreases |s|
  {
    var front, last := s[..|s| - 1], s[|s| - 1];
    if j == |s| - 1 {
      assert Without(s, j) == front;
    } else {
      BagWithout(front, j);
      WithoutBeforeLast(s, j);
      BagSnoc(Without(front, j), last);
    }
  }

  lemma WithoutBeforeLast(s: seq<Observation>, j: nat)
    requires j < |s| - 1
    ensures Without(s, j) == Without(s[..|s| - 1], j) + [s[|s| - 1]]
  {
  }

  lemma {:induction false} BagOfPermutation(s: seq<Observation>, t: seq<Observation>)
    requires multiset(s) == multiset(t)
    ensures Bag(s) == Bag(t) && |s| == |t|
    decreases |s|
  {
    assert |multiset(s)| == |s| && |multiset(t)| == |t|;
    if s != [] {
      var j := IndexOf(t, s[0]);
      WithoutMultiset(s, 0);
      WithoutMultiset(t, j);
      MultisetCancel(multiset(Without(s, 0)), multiset(Without(t, j)), s[0]);
      BagOfPermutation(Without(s, 0), Without(t, j));
      BagWithout(s, 0);
      BagWithout(t, j);
    }
  }

  lemma IndexOf(t: seq<Observation>, e: Observation) returns (j: nat)
    requires e in multiset(t)
    ensures j < |t| && t[j] == e
  {
    var k :| 0 <= k < |t| && t[k] == e;
    j := k;
  }

  lemma MultisetCancel<T>(a: multiset<T>, b: multiset<T>, e: T)
    requires a + multiset{e} == b + multiset{e}
    ensures a == b
  {
    assert a == a + multiset{e} - multiset{e};
    assert b == b + multiset{e} - multiset{e};
  }

  // ---- The ten largest ----

  ghost predicate Below(dropped: multiset<nat>, kept: multiset<nat>) {
    forall d, e | d in dropped && e in kept :: d <= e
  }

  /** Admitting `x` keeps the largest: what falls out is below everything that stays. */
  lemma AdmittedKeepsLargest(s: seq<Observation>, o: Observation, u: seq<Observation>, dropped: multiset<nat>)
    returns (dropped': multiset<nat>)
    requires Admitted(s, o, u) && Below(dropped, Bag(s)) && |s| <= LIMIT && (|s| < LIMIT ==> dropped == multiset{})
    ensures Bag(u) + dropped' == Bag(s) + dropped + multiset{o.totalNs} && Below(dropped', Bag(u))
    ensures |u| <= LIMIT && (|u| < LIMIT ==> dropped' == multiset{}) && |u| >= |s|
  {
    if |s| < LIMIT {
      dropped' := dropped;
      BagSnoc(s, o);
    } else {
      var k: nat :| IsFirstMin(s, k) && u == if o.totalNs > s[k].totalNs then s[k := o] else s;
      if o.totalNs > s[k].totalNs {
        dropped' := dropped + multiset{s[k].totalNs};
        LargerTakesTheMinimum(s, k, o, dropped);
      } else {
        dropped' := dropped + multiset{o.totalNs};
        MinimumOfBag(s, k);
      }
    }
  }

  lemma LargerTakesTheMinimum(s: seq<Observation>, k: nat, o: Observation, dropped: multiset<nat>)
    requires IsFirstMin(s, k) && o.totalNs > s[k].totalNs && Below(dropped, Bag(s))
    ensures var u, dropped' := s[k := o], dropped + multiset{s[k].totalNs};
            Bag(u) + dropped' == Bag(s) + dropped + multiset{o.totalNs} && Below(dropped', Bag(u))
  {
    var u := s[k := o];
    MinimumOfBag(s, k);
    BagWithout(s, k);
    BagWithout(u, k);
    assert Without(u, k) == Without(s, k);
    assert forall e | e in Bag(Without(s, k)) :: e in Bag(s);
    ReplacedMinimum(Bag(Without(s, k)), s[k].totalNs, o.totalNs, dropped);
  }

  lemma ReplacedMinimum(rest: multiset<nat>, m: nat, x: nat, dropped: multiset<nat>)
    requires Below(dropped, rest + multiset{m}) && (forall e | e in rest :: m <= e) && m < x
    ensures Below(dropped + multiset{m}, rest + multiset{x})
    ensures rest + multiset{x} + (dropped + multiset{m}) == rest + multiset{m} + dropped + multiset{x}
  {
    assert m in rest + multiset{m};
    forall d, e | d in dropped + multiset{m} && e in rest + multiset{x} ensures d <= e {
      if d in dropped { assert d <= m; }
    }
  }

  lemma MinimumOfBag(s: seq<Observation>, k: nat)
    requires IsFirstMin(s, k)
    ensures s[k].totalNs in Bag(s) && forall e | e in Bag(s) :: s[k].totalNs <= e
  {
    BagWithout(s, k);
    BagValues(s, s[k].totalNs);
  }

  lemma {:induction false} BagValues(s: seq<Observation>, low: nat)
    requires forall i | 0 <= i < |s| :: low <= s[i].totalNs
    ensures forall e | e in Bag(s) :: low <= e
    decreases |s|
  {
    if s != [] { BagValues(s[..|s| - 1], low); }
  }

  // ---- Sorting everything and taking ten gives the same ----

  /** A descending list of the largest values agrees with any descending list of all of them. */
  lemma {:induction false} LargestArePrefix(a: seq<Observation>, full: seq<Observation>, dropped: multiset<nat>)
    requires Descending(a) && Descending(full)
    requires Bag(full) == Bag(a) + dropped && Below(dropped, Bag(a))
    ensures Agree(a, full)
    decreases |a|
  {
    if a != [] {
      HeadIsMaximum(a, full, dropped);
      TailsAgree(a, full, dropped);
      TailDescends(a);
      TailDescends(full);
      LargestArePrefix(a[1..], full[1..], dropped);
    }
  }

  /** The lists have the same latencies as long as the first one lasts. */
  ghost predicate Agree(a: seq<Observation>, b: seq<Observation>)
    decreases |a|
  {
    a != [] ==> b != [] && a[0].totalNs == b[0].totalNs && Agree(a[1..], b[1..])
  }

  lemma {:induction false} AgreeAt(a: seq<Observation>, b: seq<Observation>)
    requires Agree(a, b)
    ensures |a| <= |b| && forall i | 0 <= i < |a| :: a[i].totalNs == b[i].totalNs
    decreases |a|
  {
    if a != [] {
      AgreeAt(a[1..], b[1..]);
      forall i | 0 <= i < |a| ensures a[i].totalNs == b[i].totalNs {
        if i > 0 { assert a[1..][i - 1].totalNs == b[1..][i - 1].totalNs; }
      }
    }
  }

  lemma TailDescends(s: seq<Observation>)
    requires Descending(s) && s != []
    ensures Descending(s[1..])
  {
  }

  lemma TailsAgree(a: seq<Observation>, full: seq<Observation>, dropped: multiset<nat>)
    requires a != [] && full != [] && a[0].totalNs == full[0].totalNs
    requires Bag(full) == Bag(a) + dropped && Below(dropped, Bag(a))
    ensures Bag(full[1..]) == Bag(a[1..]) + dropped && Below(dropped, Bag(a[1..]))
  {
    BagWithout(a, 0);
    BagWithout(full, 0);
    assert Without(a, 0) == a[1..] && Without(full, 0) == full[1..];
    TailBags(Bag(full[1..]), Bag(a[1..]), a[0].totalNs, dropped);
  }

  lemma TailBags(f: multiset<nat>, a: multiset<nat>, v: nat, dropped: multiset<nat>)
    requires f + multiset{v} == a + multiset{v} + dropped && Below(dropped, a + multiset{v})
    ensures f == a + dropped && Below(dropped, a)
  {
    assert a + multiset{v} + dropped == a + dropped + multiset{v};
    MultisetCancel(f, a + dropped, v);
    assert forall e | e in a :: e in a + multiset{v};
  }

  lemma HeadIsMaximum(a: seq<Observation>, full: seq<Observation>, dropped: multiset<nat>)
    requires Descending(a) && Descending(full) && a != []
    requires Bag(full) == Bag(a) + dropped && Below(dropped, Bag(a))
    ensures full != [] && a[0].totalNs == full[0].totalNs
  {
    BagWithout(a, 0);
    assert a[0].totalNs in Bag(full);
    BagBound(full, a[0].totalNs);
    BagWithout(full, 0);
    assert full[0].totalNs in Bag(full);
    if full[0].totalNs in Bag(a) { BagBound(a, full[0].totalNs); }
  }

  /** Nothing in a descending list exceeds its head. */
  lemma BagBound(s: seq<Observation>, x: nat)
    requires Descending(s) && x in Bag(s)
    ensures s != [] && x <= s[0].totalNs
  {
    assert s != [];
    BagCeiling(s, s[0].totalNs);
  }

  lemma {:induction false} BagCeiling(s: seq<Observation>, high: nat)
    requires forall i | 0 <= i < |s| :: s[i].totalNs <= high
    ensures forall e | e in Bag(s) :: e <= high
    decreases |s|
  {
    if s != [] { BagCeiling(s[..|s| - 1], high); }
  }

  // ---- Whole streams ----

  /** A list that the calls may leave after observing the stream, whatever order equal latencies take. */
  ghost predicate Reaches(stream: seq<Observation>, s: seq<Observation>)
    decreases |stream|
  {
    if stream == [] then s == []
    else
      var front, o := stream[..|stream| - 1], stream[|stream| - 1];
      exists before :: Recorded(before, o, s) && Reaches(front, before)
  }

  lemma RecordedKeepsLargest(s: seq<Observation>, o: Observation, t: seq<Observation>, dropped: multiset<nat>)
    returns (dropped': multiset<nat>)
    requires Recorded(s, o, t) && Below(dropped, Bag(s)) && |s| <= LIMIT && (|s| < LIMIT ==> dropped == multiset{})
    ensures Bag(t) + dropped' == Bag(s) + dropped + multiset{o.totalNs} && Below(dropped', Bag(t))
    ensures |t| <= LIMIT && (|t| < LIMIT ==> dropped' == multiset{})
  {
    var u :| Admitted(s, o, u) && multiset(t) == multiset(u);
    dropped' := AdmittedKeepsLargest(s, o, u, dropped);
    BagOfPermutation(t, u);
  }

  lemma {:induction false} RunKeepsLargest(stream: seq<Observation>, s: seq<Observation>)
    returns (dropped: multiset<nat>)
    requires Reaches(stream, s)
    ensures Bag(stream) == Bag(s) + dropped && Below(dropped, Bag(s)) && Descending(s)
    ensures |s| <= 10 && (|s| < 10 ==> dropped == multiset{})
    decreases |stream|
  {
    if stream == [] {
      dropped := multiset{};
    } else {
      var front, o := stream[..|stream| - 1], stream[|stream| - 1];
      var before :| Reaches(front, before) && Recorded(before, o, s);
      var earlier := RunKeepsLargest(front, before);
      dropped := RecordedKeepsLargest(before, o, s, earlier);
    }
  }

  lemma AdmittedWereThere(s: seq<Observation>, o: Observation, u: seq<Observation>)
    requires Admitted(s, o, u)
    ensures multiset(u) <= multiset(s) + multiset{o}
  {
    if |s| < LIMIT {
      assert multiset(s + [o]) == multiset(s) + multiset{o};
    } else {
      var k: nat :| IsFirstMin(s, k) && u == if o.totalNs > s[k].totalNs then s[k := o] else s;
      if o.totalNs > s[k].totalNs { assert multiset(s[k := o]) == multiset(s) - multiset{s[k]} + multiset{o}; }
    }
  }

  lemma RecordedWereThere(s: seq<Observation>, o: Observation, t: seq<Observation>)
    requires Recorded(s, o, t)
    ensures multiset(t) <= multiset(s) + multiset{o}
  {
    var u :| Admitted(s, o, u) && multiset(t) == multiset(u);
    AdmittedWereThere(s, o, u);
  }

  lemma LastObserved(front: seq<Observation>, o: Observation, stream: seq<Observation>)
    requires stream != [] && front == stream[..|stream| - 1] && o == stream[|stream| - 1]
    ensures multiset(stream) == multiset(front) + multiset{o}
  {
    assert stream == front + [o];
  }

  /** Whatever is kept was observed, with all its details and no more often. */
  lemma {:induction false} KeptWereObserved(stream: seq<Observation>, s: seq<Observation>)
    requires Reaches(stream, s)
    ensures multiset(s) <= multiset(stream)
    decreases |stream|
  {
    hide Recorded;
    if stream != [] {
      var front, o := stream[..|stream| - 1], stream[|stream| - 1];
      var before :| Reaches(front, before) && Recorded(before, o, s);
      KeptWereObserved(front, before);
      RecordedWereThere(before, o, s);
      LastObserved(front, o, stream);
    }
  }

  lemma {:induction false} BagSize(s: seq<Observation>)
    ensures |Bag(s)| == |s|
    decreases |s|
  {
    if s != [] { BagSize(s[..|s| - 1]); }
  }

  /**
   After any stream the list is descending and holds, latency for latency, the first ten of the whole
   stream in any descending order, or all of it.
   */
  lemma SlowestAreTheTopTen(stream: seq<Observation>, slowest: seq<Observation>, full: seq<Observation>)
    requires Reaches(stream, slowest)
    requires Descending(full) && multiset(full) == multiset(stream)
    ensures Descending(slowest)
    ensures |slowest| == (if |stream| <= 10 then |stream| else 10) && |slowest| <= |full|
    ensures forall i | 0 <= i < |slowest| :: slowest[i].totalNs == full[i].totalNs
    ensures multiset(slowest) <= multiset(stream)
  {
    KeptWereObserved(stream, slowest);
    var dropped := RunKeepsLargest(stream, slowest);
    BagOfPermutation(full, stream);
    LargestArePrefix(slowest, full, dropped);
    AgreeAt(slowest, full);
    BagSize(stream);
    BagSize(slowest);
    assert |Bag(stream)| == |Bag(slowest)| + |dropped|;
  }
}
