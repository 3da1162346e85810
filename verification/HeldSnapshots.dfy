/**
 Snapshots as the program holds them.  A metric is a double of any type `D`; the output stream shows
 it as a token, and different doubles may be shown alike, since the stream keeps six significant
 digits.  Everything else about a snapshot can be read from its text.
 */
module HeldSnapshots {
  import opened JsonGrammar
  import opened JsonParser
  import opened JsonPrinter
  import opened Dashboard
  import opened SnapshotReader

  function ShownPerformanceOf<D>(show: D -> Double, p: Performance<D>): ShownPerformance {
    Performance(
      p.intentsObserved, p.approvalsObserved, p.plansObserved, p.executionReportsObserved, p.filledPlans,
      p.failedPlans, p.grossPnlTick, p.netPnlTick, p.terminalPayoutTick, p.terminalCostTick, p.terminalPnlTick,
      p.terminalCompletePlans, p.maxDrawdownTick, show(p.maxDrawdownRatio), p.returnsCount, show(p.latestReturn),
      p.latestReturnStatus, show(p.volatility), p.volatilityStatus, show(p.sharpe), p.sharpeStatus, show(p.fillRate),
      p.fillRateStatus, show(p.riskApprovalRate), p.riskApprovalRateStatus, show(p.intentConversionRate),
      p.intentConversionRateStatus, show(p.turnover), p.turnoverStatus, p.version, p.updatedTsNs)
  }

  function ShownOf<D>(show: D -> Double, h: Snapshot<D>): ShownSnapshot {
    Snapshot(h.seqNo, h.tsNs, h.account, ShownPerformanceOf(show, h.performance), h.regime, h.latency, h.signal, h.risk,
      h.execution, h.filledOrders, h.terminalPnl)
  }

  function HeldJson<D>(show: D -> Double, h: Snapshot<D>): string { SnapshotJson(ShownOf(show, h)) }

  /** The eight doubles have the same tokens. */
  predicate SameTokens<D>(show: D -> Double, p: Performance<D>, q: Performance<D>) {
    && show(p.maxDrawdownRatio) == show(q.maxDrawdownRatio) && show(p.latestReturn) == show(q.latestReturn)
    && show(p.volatility) == show(q.volatility) && show(p.sharpe) == show(q.sharpe)
    && show(p.fillRate) == show(q.fillRate) && show(p.riskApprovalRate) == show(q.riskApprovalRate)
    && show(p.intentConversionRate) == show(q.intentConversionRate) && show(p.turnover) == show(q.turnover)
  }

  /** The performance `p` with the doubles of `q`. */
  function WithDoublesOf<D>(p: Performance<D>, q: Performance<D>): Performance<D> {
    p.(maxDrawdownRatio := q.maxDrawdownRatio, latestReturn := q.latestReturn, volatility := q.volatility,
       sharpe := q.sharpe, fillRate := q.fillRate, riskApprovalRate := q.riskApprovalRate,
       intentConversionRate := q.intentConversionRate, turnover := q.turnover)
  }

  ghost predicate SameButDoubles<D>(h: Snapshot<D>, g: Snapshot<D>) {
    h.(performance := WithDoublesOf(h.performance, g.performance)) == g
  }

  /** A client reads back everything of a held snapshot, each double as its token. */
  lemma HeldReadsBack<D>(show: D -> Double, h: Snapshot<D>)
    ensures var r := ParseDocument(HeldJson(show, h)); r.Done? && ReadSnapshot(r.value) == ShownOf(show, h)
  {
    SnapshotReadsBack(ShownOf(show, h));
  }

  /** Two held snapshots have the same text exactly when all else agrees and each double is shown alike. */
  lemma SameTextExactly<D>(show: D -> Double, h: Snapshot<D>, g: Snapshot<D>)
    ensures HeldJson(show, h) == HeldJson(show, g) <==>
            SameButDoubles(h, g) && SameTokens(show, h.performance, g.performance)
  {
    hide SnapshotJson;
    SnapshotDetermined(ShownOf(show, h), ShownOf(show, g));
  }

  ghost predicate Injective<D(!new)>(show: D -> Double) { forall x, y | show(x) == show(y) :: x == y }

  /** No two held snapshots have the same text. */
  ghost predicate TextTells<D(!new)>(show: D -> Double) {
    forall h: Snapshot<D>, g: Snapshot<D> | HeldJson(show, h) == HeldJson(show, g) :: h == g
  }

  /** Doubles that are shown alike give two snapshots with one text. */
  lemma ShownAlikeCollide<D>(show: D -> Double, h: Snapshot<D>, x: D, y: D)
    requires x != y && show(x) == show(y)
    ensures var a := h.(performance := h.performance.(sharpe := x));
            var b := h.(performance := h.performance.(sharpe := y));
            a != b && HeldJson(show, a) == HeldJson(show, b)
  {
    hide HeldJson;
    var a := h.(performance := h.performance.(sharpe := x));
    var b := h.(performance := h.performance.(sharpe := y));
    SameTextExactly(show, a, b);
    assert a.performance.sharpe != b.performance.sharpe;
  }

  /** The text tells every held snapshot exactly when no two doubles are shown alike; `h` is any snapshot at all. */
  lemma TextTellsExactly<D(!new)>(show: D -> Double, h: Snapshot<D>)
    ensures TextTells(show) <==> Injective(show)
  {
    hide HeldJson;
    if TextTells(show) {
      forall x, y | show(x) == show(y) ensures x == y {
        if x != y { Collides(show, h, x, y); }
      }
    }
    if Injective(show) {
      forall a: Snapshot<D>, b: Snapshot<D> | HeldJson(show, a) == HeldJson(show, b) ensures a == b {
        SameTextExactly(show, a, b);
      }
    }
  }

  lemma Collides<D(!new)>(show: D -> Double, h: Snapshot<D>, x: D, y: D)
    requires x != y && show(x) == show(y)
    ensures !TextTells(show)
  {
    hide HeldJson;
    ShownAlikeCollide(show, h, x, y);
  }

  // ---- Six significant digits ----

  /** Rounding to five decimals takes `x` to `k` hundred-thousandths, whatever it does with ties. */
  predicate RoundsTo(x: real, k: int) { k as real - 0.5 < x * 100000.0 < k as real + 0.5 }

  /** Between one and ten, a number is shown by its six significant digits only. */
  ghost predicate ShowsSixDigits(show: real -> Double) {
    forall x, y, k | 1.0 <= x < 10.0 && 1.0 <= y < 10.0 && RoundsTo(x, k) && RoundsTo(y, k) :: show(x) == show(y)
  }

  /** So the stream cannot tell 1 from 1.0000001, nor a snapshot with one from a snapshot with the other. */
  lemma SeventhDigitIsLost(show: real -> Double, h: Snapshot<real>)
    requires ShowsSixDigits(show)
    ensures var a := h.(performance := h.performance.(sharpe := 1.0));
            var b := h.(performance := h.performance.(sharpe := 1.0000001));
            a != b && HeldJson(show, a) == HeldJson(show, b)
    ensures !TextTells(show)
  {
    hide HeldJson;
    assert RoundsTo(1.0, 100000) && RoundsTo(1.0000001, 100000);
    ShownAlikeCollide(show, h, 1.0, 1.0000001);
    Collides(show, h, 1.0, 1.0000001);
  }
}
