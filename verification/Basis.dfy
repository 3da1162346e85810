/**
 The basis tracker of `research/poly_btc_above_fair_research.py`: an average of deviations that
 forgets with the time between samples.  Floats are reals; a deviation or value that is not
 finite is `None`.  The exponential is a parameter, and each result names what it needs of it.
 */
module Basis {
  import opened Options

  type Fn = real -> real

  ghost predicate Decays(exp: Fn) { forall x | x <= 0.0 :: 0.0 <= exp(x) <= 1.0 }

  ghost predicate ProductAt(exp: Fn, x: real, y: real) { exp(x + y) == exp(x) * exp(y) }

  ghost predicate TurnsSumsIntoProducts(exp: Fn) { exp(0.0) == 1.0 && forall x, y :: ProductAt(exp, x, y) }

  datatype Sample = Sample(ts: int, deviation: Option<real>, healthy: bool)

  datatype Tracker = Tracker(tau: real, value: Option<real>, lastTs: int, updates: nat)

  const NS_PER_SECOND := 1_000_000_000.0

  /** The time constant is never below one second. */
  function NewTracker(tau: real): Tracker { Tracker(if tau > 1.0 then tau else 1.0, None, 0, 0) }

  predicate Counts(s: Sample) { s.healthy && s.deviation.Some? }

  /** Nanoseconds forward; a clock that went back counts as standing still. */
  function Forward(before: int, after: int): nat { if after >= before then after - before else 0 }

  /** How much of an old value is left after so many nanoseconds. */
  function Left(exp: Fn, tau: real, ns: nat): real
    requires tau >= 1.0
  {
    exp(-(ns as real / NS_PER_SECOND) / tau)
  }

  function Blend(left: real, held: real, sample: real): real { left * held + (1.0 - left) * sample }

  function Next(exp: Fn, t: Tracker, s: Sample): (r: Tracker)
    requires t.tau >= 1.0
    ensures r.tau == t.tau
  {
    if !Counts(s) then t
    else if t.value.None? then t.(value := s.deviation, lastTs := s.ts, updates := t.updates + 1)
    else t.(value := Some(Blend(Left(exp, t.tau, Forward(t.lastTs, s.ts)), t.value.value, s.deviation.value)),
            lastTs := s.ts, updates := t.updates + 1)
  }

  class BasisTracker {
    const exp: Fn
    const tauSec: real
    var value: Option<real>
    var lastTsNs: int
    var updates: nat

    ghost function View(): Tracker
      reads this
    {
      Tracker(tauSec, value, lastTsNs, updates)
    }

    constructor (exp: Fn, tau: real)
      ensures View() == NewTracker(tau) && this.exp == exp && tauSec >= 1.0
    {
      this.exp := exp;
      tauSec := if tau > 1.0 then tau else 1.0;
      value, lastTsNs, updates := None, 0, 0;
    }

    method Update(ts: int, deviation: Option<real>, healthy: bool) returns (r: Option<real>)
      requires tauSec >= 1.0
      modifies this
      ensures View() == Next(exp, old(View()), Sample(ts, deviation, healthy)) && r == value
    {
      if !healthy || deviation.None? { return value; }
      if value.None? {
        value := deviation;
        lastTsNs := ts;
        updates := updates + 1;
        return value;
      }
      var dtSec := if ts >= lastTsNs then (ts - lastTsNs) as real / NS_PER_SECOND else 0.0;
      var alpha := 1.0 - exp(-dtSec / tauSec);
      assert alpha == 1.0 - Left(exp, tauSec, Forward(lastTsNs, ts));
      var blend := Weigh(alpha, deviation.value, value.value);
      value := Some(blend);
      lastTsNs := ts;
      updates := updates + 1;
      r := value;
    }
  }

  method Weigh(alpha: real, sample: real, held: real) returns (blend: real)
    ensures forall left :: alpha == 1.0 - left ==> blend == Blend(left, held, sample)
  {
    blend := alpha * sample + (1.0 - alpha) * held;
    forall left | alpha == 1.0 - left ensures blend == Blend(left, held, sample) {
      assert left == 1.0 - alpha;
    }
  }

  function Run(exp: Fn, t: Tracker, samples: seq<Sample>, n: nat): (r: Tracker)
    requires t.tau >= 1.0 && n <= |samples|
    ensures r.tau == t.tau
  {
    if n == 0 then t else Next(exp, Run(exp, t, samples, n - 1), samples[n - 1])
  }

  /** After exactly one time constant, a second at least, the part exp(-1) of the first sample's lead is left. */
  lemma AfterOneTimeConstant(exp: Fn, tau: real, first: Sample, second: Sample)
    requires first.healthy && first.deviation.Some? && second.healthy && second.deviation.Some?
    requires (second.ts - first.ts) as real == 1_000_000_000.0 * if tau > 1.0 then tau else 1.0
    ensures var x, y := first.deviation.value, second.deviation.value;
            var t := Run(exp, NewTracker(tau), [first, second], 2);
            t.value.Some? && t.value.value == y + (x - y) * exp(-1.0) && t.lastTs == second.ts && t.updates == 2
  {
    hide Left, Blend, Next, Run, Forward;
    var one := FirstValue(exp, tau, first, second);
    LaterByOneTimeConstant(one.tau, second.ts - first.ts);
    SecondValue(exp, one, second, exp(-1.0));
  }

  lemma LaterByOneTimeConstant(tau: real, ns: int)
    requires tau >= 1.0 && ns as real == 1_000_000_000.0 * tau
    ensures ns >= 0
  {
  }

  lemma FirstValue(exp: Fn, tau: real, first: Sample, second: Sample) returns (one: Tracker)
    requires Counts(first)
    ensures one == Tracker(if tau > 1.0 then tau else 1.0, first.deviation, first.ts, 1)
    ensures Run(exp, NewTracker(tau), [first, second], 2) == Next(exp, one, second)
  {
    hide Left, Blend;
    one := Next(exp, NewTracker(tau), first);
    assert Run(exp, NewTracker(tau), [first, second], 1) == one;
  }

  lemma SecondValue(exp: Fn, t: Tracker, s: Sample, left: real)
    requires t.tau >= 1.0 && t.value.Some? && Counts(s) && s.ts >= t.lastTs && left == exp(-1.0)
    requires (s.ts - t.lastTs) as real == 1_000_000_000.0 * t.tau
    ensures var r := Next(exp, t, s);
            && r.value.Some? && r.value.value == s.deviation.value + (t.value.value - s.deviation.value) * left
            && r.lastTs == s.ts && r.updates == t.updates + 1
  {
    hide Left, Blend;
    OneTimeConstant(exp, t.tau, s.ts - t.lastTs);
    BlendFromSample(left, t.value.value, s.deviation.value);
    assert Left(exp, t.tau, Forward(t.lastTs, s.ts)) == left;
    assert Next(exp, t, s).value == Some(Blend(left, t.value.value, s.deviation.value));
  }

  lemma OneTimeConstant(exp: Fn, tau: real, ns: nat)
    requires tau >= 1.0 && ns as real == 1_000_000_000.0 * tau
    ensures Left(exp, tau, ns) == exp(-1.0)
  {
    assert ns as real / NS_PER_SECOND == tau;
    assert -tau / tau == -1.0;
  }

  lemma BlendFromSample(left: real, held: real, sample: real)
    ensures Blend(left, held, sample) == sample + (held - sample) * left
  {
    assert (1.0 - left) * sample == sample - left * sample;
    assert (held - sample) * left == left * held - left * sample;
  }

  // Only healthy, finite samples matter.

  function Counted(samples: seq<Sample>, n: nat): (r: seq<Sample>)
    requires n <= |samples|
    ensures forall i | 0 <= i < |r| :: Counts(r[i])
  {
    if n == 0 then [] else Counted(samples, n - 1) + if Counts(samples[n - 1]) then [samples[n - 1]] else []
  }

  lemma {:induction false} RunPrefix(exp: Fn, t: Tracker, a: seq<Sample>, b: seq<Sample>, n: nat)
    requires t.tau >= 1.0 && n <= |a| && a <= b
    ensures Run(exp, t, a, n) == Run(exp, t, b, n)
  {
    if n > 0 { RunPrefix(exp, t, a, b, n - 1); }
  }

  /** The tracker ends in the same state as if the other samples had never come. */
  lemma {:induction false} OnlyCountedMatter(exp: Fn, t: Tracker, samples: seq<Sample>, n: nat)
    requires t.tau >= 1.0 && n <= |samples|
    ensures var counted := Counted(samples, n);
            Run(exp, t, samples, n) == Run(exp, t, counted, |counted|)
  {
    if n > 0 {
      OnlyCountedMatter(exp, t, samples, n - 1);
      var before, after := Counted(samples, n - 1), Counted(samples, n);
      RunPrefix(exp, t, before, after, |before|);
    }
  }

  // The value is an average.

  ghost predicate AllWithin(samples: seq<Sample>, n: nat, lo: real, hi: real) {
    forall i | 0 <= i < n <= |samples| && Counts(samples[i]) :: lo <= samples[i].deviation.value <= hi
  }

  ghost predicate AnyCounts(samples: seq<Sample>, n: nat) {
    exists i :: 0 <= i < n <= |samples| && Counts(samples[i])
  }

  lemma BlendStaysBetween(left: real, held: real, sample: real, lo: real, hi: real)
    requires 0.0 <= left <= 1.0 && lo <= held <= hi && lo <= sample <= hi
    ensures lo <= Blend(left, held, sample) <= hi
  {
    assert left * (held - lo) >= 0.0 && (1.0 - left) * (sample - lo) >= 0.0;
    assert left * (hi - held) >= 0.0 && (1.0 - left) * (hi - sample) >= 0.0;
  }

  /** From the first sample that counts on, the value is between the least and the greatest of them. */
  lemma {:induction false} ValueIsBetweenSamples(exp: Fn, tau: real, samples: seq<Sample>, n: nat, lo: real, hi: real)
    requires n <= |samples| && Decays(exp) && AllWithin(samples, n, lo, hi)
    ensures var v := Run(exp, NewTracker(tau), samples, n).value;
            && (v.Some? <==> AnyCounts(samples, n))
            && (v.Some? ==> lo <= v.value <= hi)
  {
    if n > 0 {
      ValueIsBetweenSamples(exp, tau, samples, n - 1, lo, hi);
      var t, s := Run(exp, NewTracker(tau), samples, n - 1), samples[n - 1];
      if Counts(s) && t.value.Some? {
        var left := Left(exp, t.tau, Forward(t.lastTs, s.ts));
        LeftIsAFraction(exp, t.tau, Forward(t.lastTs, s.ts));
        BlendStaysBetween(left, t.value.value, s.deviation.value, lo, hi);
      }
    }
  }

  lemma LeftIsAFraction(exp: Fn, tau: real, ns: nat)
    requires tau >= 1.0 && Decays(exp)
    ensures 0.0 <= Left(exp, tau, ns) <= 1.0
  {
    var sec := ns as real / NS_PER_SECOND;
    assert sec >= 0.0;
    QuotientIsNotPositive(-sec, tau);
  }

  lemma QuotientIsNotPositive(x: real, tau: real)
    requires x <= 0.0 && tau >= 1.0
    ensures x / tau <= 0.0
  {
  }

  // Forgetting.

  ghost predicate AllCount(samples: seq<Sample>) { forall i | 0 <= i < |samples| :: Counts(samples[i]) }

  /** The nanoseconds the clock moved forward over the first `n` samples, starting from `ts`. */
  function Climb(samples: seq<Sample>, n: nat, ts: int): nat
    requires n <= |samples|
  {
    if n == 0 then 0 else Climb(samples, n - 1, ts) + Forward(LastTime(samples, n - 1, ts), samples[n - 1].ts)
  }

  function LastTime(samples: seq<Sample>, n: nat, ts: int): int
    requires n <= |samples|
  {
    if n == 0 then ts else samples[n - 1].ts
  }

  ghost predicate NeverBack(samples: seq<Sample>, n: nat, ts: int) {
    forall i | 0 <= i < n <= |samples| :: samples[i].ts >= LastTime(samples, i, ts)
  }

  /** The climb is the whole time elapsed exactly when no clock reading goes back; otherwise time is counted twice. */
  lemma {:induction false} ClimbIsElapsedTime(samples: seq<Sample>, n: nat, ts: int)
    requires n <= |samples|
    ensures Climb(samples, n, ts) >= LastTime(samples, n, ts) - ts
    ensures Climb(samples, n, ts) == LastTime(samples, n, ts) - ts <==> NeverBack(samples, n, ts)
  {
    if n > 0 {
      ClimbIsElapsedTime(samples, n - 1, ts);
      assert NeverBack(samples, n, ts) <==>
             NeverBack(samples, n - 1, ts) && samples[n - 1].ts >= LastTime(samples, n - 1, ts);
    }
  }

  lemma DelaysMultiply(exp: Fn, tau: real, a: nat, b: nat)
    requires tau >= 1.0 && TurnsSumsIntoProducts(exp)
    ensures Left(exp, tau, a) * Left(exp, tau, b) == Left(exp, tau, a + b)
  {
    var x, y := -(a as real / NS_PER_SECOND), -(b as real / NS_PER_SECOND);
    assert x + y == -((a + b) as real / NS_PER_SECOND);
    QuotientsAdd(x, y, tau);
    assert ProductAt(exp, x / tau, y / tau);
  }

  lemma QuotientsAdd(x: real, y: real, tau: real)
    requires tau >= 1.0
    ensures x / tau + y / tau == (x + y) / tau
  {
  }

  lemma NoDelayKeepsAll(exp: Fn, tau: real)
    requires tau >= 1.0 && TurnsSumsIntoProducts(exp)
    ensures Left(exp, tau, 0) == 1.0
  {
    assert 0.0 / tau == 0.0;
  }

  /** What is left of a difference after so many nanoseconds. */
  function Faded(exp: Fn, tau: real, gap: real, ns: nat): real
    requires tau >= 1.0
  {
    gap * Left(exp, tau, ns)
  }

  lemma FadesFromAll(exp: Fn, tau: real, gap: real)
    requires tau >= 1.0 && TurnsSumsIntoProducts(exp)
    ensures Faded(exp, tau, gap, 0) == gap
  {
    NoDelayKeepsAll(exp, tau);
  }

  lemma BlendsDiffer(left: real, v: real, w: real, sample: real, gap: real, before: real)
    requires v - w == gap * before
    ensures Blend(left, v, sample) - Blend(left, w, sample) == gap * (before * left)
  {
    assert Blend(left, v, sample) - Blend(left, w, sample) == left * (v - w);
    assert left * (gap * before) == gap * (before * left);
  }

  lemma FadesOn(exp: Fn, tau: real, gap: real, climb: nat, step: nat, v: real, w: real, sample: real)
    requires tau >= 1.0 && TurnsSumsIntoProducts(exp)
    requires v - w == Faded(exp, tau, gap, climb)
    ensures Blend(Left(exp, tau, step), v, sample) - Blend(Left(exp, tau, step), w, sample)
            == Faded(exp, tau, gap, climb + step)
  {
    BlendsDiffer(Left(exp, tau, step), v, w, sample, gap, Left(exp, tau, climb));
    DelaysMultiply(exp, tau, climb, step);
  }

  /** Two trackers fed the same samples: what they started with is forgotten with the climb of the clock alone. */
  lemma {:induction false} StartIsForgotten(exp: Fn, t: Tracker, w: real, samples: seq<Sample>, n: nat)
    requires t.tau >= 1.0 && t.value.Some? && TurnsSumsIntoProducts(exp)
    requires n <= |samples| && AllCount(samples)
    ensures var a, b := Run(exp, t, samples, n), Run(exp, t.(value := Some(w)), samples, n);
            && a.value.Some? && b.value.Some? && a.lastTs == b.lastTs == LastTime(samples, n, t.lastTs)
            && a.value.value - b.value.value == Faded(exp, t.tau, t.value.value - w, Climb(samples, n, t.lastTs))
  {
    if n == 0 {
      FadesFromAll(exp, t.tau, t.value.value - w);
    } else {
      StartIsForgotten(exp, t, w, samples, n - 1);
      var a, b := Run(exp, t, samples, n - 1), Run(exp, t.(value := Some(w)), samples, n - 1);
      FadesOn(exp, t.tau, t.value.value - w, Climb(samples, n - 1, t.lastTs), Forward(a.lastTs, samples[n - 1].ts),
              a.value.value, b.value.value, samples[n - 1].deviation.value);
    }
  }

  ghost predicate AllAre(samples: seq<Sample>, c: real) {
    forall i | 0 <= i < |samples| :: samples[i].healthy && samples[i].deviation == Some(c)
  }

  lemma BlendOfSame(left: real, c: real)
    ensures Blend(left, c, c) == c
  {
    assert (1.0 - left) * c == c - left * c;
  }

  lemma {:induction false} ConstantStays(exp: Fn, t: Tracker, c: real, samples: seq<Sample>, n: nat)
    requires t.tau >= 1.0 && t.value == Some(c) && n <= |samples| && AllAre(samples, c)
    ensures Run(exp, t, samples, n).value == Some(c)
  {
    if n > 0 {
      ConstantStays(exp, t, c, samples, n - 1);
      BlendOfSame(Left(exp, t.tau, Forward(Run(exp, t, samples, n - 1).lastTs, samples[n - 1].ts)), c);
    }
  }

  /** A constant deviation is approached by the climb of the clock alone, whatever the samples in between. */
  lemma ConstantDeviation(exp: Fn, t: Tracker, c: real, samples: seq<Sample>, ns: nat)
    requires t.tau >= 1.0 && t.value.Some? && TurnsSumsIntoProducts(exp)
    requires AllAre(samples, c) && Climb(samples, |samples|, t.lastTs) == ns
    ensures Run(exp, t, samples, |samples|).value == Some(c + Faded(exp, t.tau, t.value.value - c, ns))
  {
    StartIsForgotten(exp, t, c, samples, |samples|);
    ConstantStays(exp, t.(value := Some(c)), c, samples, |samples|);
  }

  /** Cutting an interval into samples in two ways, with clocks that never go back, gives the same value. */
  lemma SubdivisionIrrelevant(exp: Fn, t: Tracker, c: real, a: seq<Sample>, b: seq<Sample>)
    requires t.tau >= 1.0 && t.value.Some? && TurnsSumsIntoProducts(exp)
    requires AllAre(a, c) && AllAre(b, c)
    requires NeverBack(a, |a|, t.lastTs) && NeverBack(b, |b|, t.lastTs)
    requires LastTime(a, |a|, t.lastTs) == LastTime(b, |b|, t.lastTs)
    ensures Run(exp, t, a, |a|).value == Run(exp, t, b, |b|).value
  {
    var ns := LastTime(a, |a|, t.lastTs) - t.lastTs;
    ClimbIsElapsedTime(a, |a|, t.lastTs);
    ClimbIsElapsedTime(b, |b|, t.lastTs);
    ConstantDeviation(exp, t, c, a, ns);
    ConstantDeviation(exp, t, c, b, ns);
  }

  /** The longer the wait, the less is left. */
  ghost predicate Forgets(exp: Fn, tau: real)
    requires tau >= 1.0
  {
    forall a: nat, b: nat | a < b :: Left(exp, tau, b) < Left(exp, tau, a)
  }

  lemma FadedDiffers(exp: Fn, tau: real, gap: real, a: nat, b: nat)
    requires tau >= 1.0 && Forgets(exp, tau) && gap != 0.0 && a < b
    ensures Faded(exp, tau, gap, a) != Faded(exp, tau, gap, b)
  {
    var x, y := Left(exp, tau, a), Left(exp, tau, b);
    assert y < x;
    DifferentProducts(gap, x, y);
  }

  lemma DifferentProducts(gap: real, x: real, y: real)
    requires gap != 0.0 && x != y
    ensures gap * x != gap * y
  {
    assert gap * (x - y) == gap * x - gap * y;
    assert gap * (x - y) != 0.0;
  }

  /**
   From a value off a constant deviation, the tracker ends where the elapsed time alone would take it exactly
   when no clock reading goes back; otherwise it has come closer, as time was counted twice.
   */
  lemma ElapsedTimeDecidesExactly(exp: Fn, t: Tracker, c: real, samples: seq<Sample>)
    requires t.tau >= 1.0 && t.value.Some? && t.value.value != c && TurnsSumsIntoProducts(exp) && Forgets(exp, t.tau)
    requires AllAre(samples, c) && LastTime(samples, |samples|, t.lastTs) >= t.lastTs
    ensures var ns := LastTime(samples, |samples|, t.lastTs) - t.lastTs;
      Run(exp, t, samples, |samples|).value == Some(c + Faded(exp, t.tau, t.value.value - c, ns)) <==>
      NeverBack(samples, |samples|, t.lastTs)
  {
    hide Faded, Climb, Run, AllAre, NeverBack;
    var ns, climb := LastTime(samples, |samples|, t.lastTs) - t.lastTs, Climb(samples, |samples|, t.lastTs);
    ClimbIsElapsedTime(samples, |samples|, t.lastTs);
    ConstantDeviation(exp, t, c, samples, climb);
    if ns < climb { FadedDiffers(exp, t.tau, t.value.value - c, ns, climb); }
  }

  /** A reading a second in the past and one back at the present move the value, although no time has gone by. */
  lemma ClockBackMovesTheValue(exp: Fn, t: Tracker, c: real)
    requires t.tau >= 1.0 && t.value.Some? && t.value.value != c && TurnsSumsIntoProducts(exp) && Forgets(exp, t.tau)
    ensures var back, now := Sample(t.lastTs - 1_000_000_000, Some(c), true), Sample(t.lastTs, Some(c), true);
      Run(exp, t, [now], 1).value == t.value && Run(exp, t, [back, now], 2).value != t.value
  {
    var back, now := Sample(t.lastTs - 1_000_000_000, Some(c), true), Sample(t.lastTs, Some(c), true);
    FadesFromAll(exp, t.tau, t.value.value - c);
    ElapsedTimeDecidesExactly(exp, t, c, [now]);
    ElapsedTimeDecidesExactly(exp, t, c, [back, now]);
    assert [back, now][0].ts < LastTime([back, now], 0, t.lastTs);
  }
}
