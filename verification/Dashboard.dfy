/**
 The dashboard snapshot and the JSON that `apps/paper_backend/DashboardApiRoutes.cpp` prints
 for it.  Integers are unbounded here; a double is the token the stream prints for it.
 Snapshot members that the printer never reads (account id, account version, reward) are left out.
 */
module Dashboard {
  import opened JsonGrammar
  import opened JsonParser
  import opened JsonPrinter
  import opened EventSchemas

  datatype MetricStatus = Ok | InsufficientData | InvalidInput
  datatype DataRegime = DataUnknown | DataHealthy | DataStale
  datatype LiquidityRegime = LiquidityUnknown | LiquidityHealthy | LiquidityDegraded | LiquidityCrossed
  datatype ChainRegime = ChainUnknown | ChainHealthy | ChainLagging | ChainError
  datatype SignalRegime = SignalUnknown | SignalHealthy | SignalQuiet | SignalRejecting
  datatype RiskRegime = RiskUnknown | RiskHealthy | RiskConstrained | RiskKillSwitch
  datatype ExecutionRegime = ExecutionUnknown | ExecutionHealthy | ExecutionPartialFill | ExecutionHedgeRequired

  /** `D` is what a metric holds. */
  datatype Performance<D> = Performance(
    intentsObserved: int, approvalsObserved: int, plansObserved: int, executionReportsObserved: int,
    filledPlans: int, failedPlans: int, grossPnlTick: int, netPnlTick: int, terminalPayoutTick: int,
    terminalCostTick: int, terminalPnlTick: int, terminalCompletePlans: int, maxDrawdownTick: int,
    maxDrawdownRatio: D, returnsCount: int, latestReturn: D, latestReturnStatus: MetricStatus,
    volatility: D, volatilityStatus: MetricStatus, sharpe: D, sharpeStatus: MetricStatus,
    fillRate: D, fillRateStatus: MetricStatus, riskApprovalRate: D,
    riskApprovalRateStatus: MetricStatus, intentConversionRate: D,
    intentConversionRateStatus: MetricStatus, turnover: D, turnoverStatus: MetricStatus, version: int,
    updatedTsNs: int)

  datatype FilledOrder = FilledOrder(
    executionReportId: int, planId: int, childOrderId: int, bundleId: int, sourceIntentId: int,
    approvedIntentId: int, reservationId: int, marketId: string, assetId: string, marketIndex: int,
    assetIndex: int, side: string, filledLots: int, remainingLots: int, avgFillPriceTick: int,
    limitPriceTick: int, estimatedVwapTick: int, worstPriceTick: int, notionalTick: int, markPriceTick: int,
    unrealizedPnlTick: int, markQuality: string, eventTsNs: int)

  datatype TerminalPnL = TerminalPnL(
    planId: int, bundleId: int, sourceIntentId: int, approvedIntentId: int, reservationId: int,
    expectedChildOrders: int, filledChildOrders: int, complete: bool, chosenBundleQty: int,
    guaranteedPayoutTick: int, expectedTerminalPnlTick: int, actualBuyCostTick: int, terminalPnlTick: int,
    updatedTsNs: int)

  datatype Regime = Regime(
    data: DataRegime, liquidity: LiquidityRegime, chain: ChainRegime, signal: SignalRegime, risk: RiskRegime,
    execution: ExecutionRegime, version: int, tsNs: int)

  datatype Latency = Latency(
    feedToStateNs: int, stateToSignalNs: int, signalToRiskNs: int, riskToExecutionNs: int, endToEndNs: int)

  datatype Account = Account(
    startingCashTick: int, cashBalanceTick: int, reservedCashTick: int, realizedPnlTick: int,
    unrealizedPnlTick: int)

  datatype SignalCounts = SignalCounts(
    intentsPublished: int, paperOpportunities: int, rejected: int, outputHash: int)

  datatype RiskCounts = RiskCounts(
    decisions: int, approved: int, rejected: int, outputHash: int)

  datatype ExecutionCounts = ExecutionCounts(
    plansCreated: int, plansFilled: int, plansFailed: int, outputHash: int)

  datatype Snapshot<D> = Snapshot(
    seqNo: nat, tsNs: int, account: Account, performance: Performance<D>, regime: Regime, latency: Latency,
    signal: SignalCounts, risk: RiskCounts, execution: ExecutionCounts,
    filledOrders: seq<FilledOrder>, terminalPnl: seq<TerminalPnL>)

  /** What is printed: each double is the token the stream shows for it. */
  type ShownPerformance = Performance<Double>

  type ShownSnapshot = Snapshot<Double>

  // ---- Names of enumeration values ----

  function StatusName(s: MetricStatus): Name {
    match s
    case Ok => "Ok"
    case InsufficientData => "InsufficientData"
    case InvalidInput => "InvalidInput"
  }

  function DataName(r: DataRegime): Name {
    match r
    case DataUnknown => "Unknown"
    case DataHealthy => "Healthy"
    case DataStale => "Stale"
  }

  function LiquidityName(r: LiquidityRegime): Name {
    match r
    case LiquidityUnknown => "Unknown"
    case LiquidityHealthy => "Healthy"
    case LiquidityDegraded => "Degraded"
    case LiquidityCrossed => "Crossed"
  }

  function ChainName(r: ChainRegime): Name {
    match r
    case ChainUnknown => "Unknown"
    case ChainHealthy => "Healthy"
    case ChainLagging => "Lagging"
    case ChainError => "Error"
  }

  function SignalName(r: SignalRegime): Name {
    match r
    case SignalUnknown => "Unknown"
    case SignalHealthy => "Healthy"
    case SignalQuiet => "Quiet"
    case SignalRejecting => "Rejecting"
  }

  function RiskName(r: RiskRegime): Name {
    match r
    case RiskUnknown => "Unknown"
    case RiskHealthy => "Healthy"
    case RiskConstrained => "Constrained"
    case RiskKillSwitch => "KillSwitch"
  }

  function ExecutionName(r: ExecutionRegime): Name {
    match r
    case ExecutionUnknown => "Unknown"
    case ExecutionHealthy => "Healthy"
    case ExecutionPartialFill => "PartialFill"
    case ExecutionHedgeRequired => "HedgeRequired"
  }

  // ---- The printed documents ----

  /** No metric is infinite or not a number. */
  predicate FiniteMetrics(p: ShownPerformance) {
    && p.maxDrawdownRatio.Finite? && p.latestReturn.Finite? && p.volatility.Finite? && p.sharpe.Finite?
    && p.fillRate.Finite? && p.riskApprovalRate.Finite? && p.intentConversionRate.Finite? && p.turnover.Finite?
  }

  predicate CleanOrder(o: FilledOrder) {
    Clean(o.marketId) && Clean(o.assetId) && Clean(o.side) && Clean(o.markQuality)
  }

  function PerformanceCounts(p: ShownPerformance, rest: Fields): (fs: Fields)
    ensures CleanFields(fs) <==> CleanFields(rest)
  {
    IntField("intents_observed", p.intentsObserved,
    IntField("approvals_observed", p.approvalsObserved,
    IntField("plans_observed", p.plansObserved,
    rest)))
  }

  function PerformanceReports(p: ShownPerformance, rest: Fields): (fs: Fields)
    ensures CleanFields(fs) <==> CleanFields(rest)
  {
    IntField("execution_reports_observed", p.executionReportsObserved,
    IntField("filled_plans", p.filledPlans,
    IntField("failed_plans", p.failedPlans,
    rest)))
  }

  function PerformancePnl(p: ShownPerformance, rest: Fields): (fs: Fields)
    ensures CleanFields(fs) <==> CleanFields(rest)
  {
    IntField("gross_pnl_tick", p.grossPnlTick,
    IntField("net_pnl_tick", p.netPnlTick,
    IntField("terminal_payout_tick", p.terminalPayoutTick,
    rest)))
  }

  function PerformanceTerminal(p: ShownPerformance, rest: Fields): (fs: Fields)
    ensures CleanFields(fs) <==> CleanFields(rest)
  {
    IntField("terminal_cost_tick", p.terminalCostTick,
    IntField("terminal_pnl_tick", p.terminalPnlTick,
    IntField("terminal_complete_plans", p.terminalCompletePlans,
    rest)))
  }

  function PerformanceReturns(p: ShownPerformance, rest: Fields): (fs: Fields)
    ensures CleanFields(fs) <==> p.maxDrawdownRatio.Finite? && p.latestReturn.Finite? && CleanFields(rest)
  {
    IntField("max_drawdown_tick", p.maxDrawdownTick,
    DoubleField("max_drawdown_ratio", p.maxDrawdownRatio,
    IntField("returns_count", p.returnsCount,
    DoubleField("latest_return", p.latestReturn,
    TextField("latest_return_status", StatusName(p.latestReturnStatus),
    rest)))))
  }

  function PerformanceRisk(p: ShownPerformance, rest: Fields): (fs: Fields)
    ensures CleanFields(fs) <==> p.volatility.Finite? && p.sharpe.Finite? && CleanFields(rest)
  {
    DoubleField("volatility", p.volatility,
    TextField("volatility_status", StatusName(p.volatilityStatus),
    DoubleField("sharpe", p.sharpe,
    TextField("sharpe_status", StatusName(p.sharpeStatus),
    rest))))
  }

  function PerformanceRates(p: ShownPerformance, rest: Fields): (fs: Fields)
    ensures CleanFields(fs) <==> p.fillRate.Finite? && p.riskApprovalRate.Finite? && CleanFields(rest)
  {
    DoubleField("fill_rate", p.fillRate,
    TextField("fill_rate_status", StatusName(p.fillRateStatus),
    DoubleField("risk_approval_rate", p.riskApprovalRate,
    TextField("risk_approval_rate_status", StatusName(p.riskApprovalRateStatus),
    rest))))
  }

  function PerformanceTurnover(p: ShownPerformance, rest: Fields): (fs: Fields)
    ensures CleanFields(fs) <==> p.intentConversionRate.Finite? && p.turnover.Finite? && CleanFields(rest)
  {
    DoubleField("intent_conversion_rate", p.intentConversionRate,
    TextField("intent_conversion_rate_status", StatusName(p.intentConversionRateStatus),
    DoubleField("turnover", p.turnover,
    TextField("turnover_status", StatusName(p.turnoverStatus),
    rest))))
  }

  function PerformanceVersion(p: ShownPerformance, rest: Fields): (fs: Fields)
    ensures CleanFields(fs) <==> CleanFields(rest)
  {
    IntField("version", p.version,
    IntField("updated_ts_ns", p.updatedTsNs,
    rest))
  }

  function PerformanceDoc(p: ShownPerformance): (d: Doc)
    ensures CleanDoc(d) <==> FiniteMetrics(p)
  {
    Obj(
      PerformanceCounts(p, PerformanceReports(p, PerformancePnl(p, PerformanceTerminal(p, PerformanceReturns(p,
      PerformanceRisk(p, PerformanceRates(p, PerformanceTurnover(p, PerformanceVersion(p, NoFields))))))))))
  }

  function OrderIds(o: FilledOrder, rest: Fields): (fs: Fields)
    ensures CleanFields(fs) <==> CleanFields(rest)
  {
    IntField("execution_report_id", o.executionReportId,
    IntField("plan_id", o.planId,
    IntField("child_order_id", o.childOrderId,
    IntField("bundle_id", o.bundleId,
    rest))))
  }

  function OrderSources(o: FilledOrder, rest: Fields): (fs: Fields)
    ensures CleanFields(fs) <==> CleanFields(rest)
  {
    IntField("source_intent_id", o.sourceIntentId,
    IntField("approved_intent_id", o.approvedIntentId,
    IntField("reservation_id", o.reservationId,
    rest)))
  }

  function OrderInstrument(o: FilledOrder, rest: Fields): (fs: Fields)
    ensures CleanFields(fs) <==> Clean(o.marketId) && Clean(o.assetId) && Clean(o.side) && CleanFields(rest)
  {
    TextField("market_id", o.marketId,
    TextField("asset_id", o.assetId,
    IntField("market_index", o.marketIndex,
    IntField("asset_index", o.assetIndex,
    TextField("side", o.side,
    rest)))))
  }

  function OrderFill(o: FilledOrder, rest: Fields): (fs: Fields)
    ensures CleanFields(fs) <==> CleanFields(rest)
  {
    IntField("filled_lots", o.filledLots,
    IntField("remaining_lots", o.remainingLots,
    IntField("avg_fill_price_tick", o.avgFillPriceTick,
    IntField("limit_price_tick", o.limitPriceTick,
    rest))))
  }

  function OrderPrices(o: FilledOrder, rest: Fields): (fs: Fields)
    ensures CleanFields(fs) <==> CleanFields(rest)
  {
    IntField("estimated_vwap_tick", o.estimatedVwapTick,
    IntField("worst_price_tick", o.worstPriceTick,
    IntField("notional_tick", o.notionalTick,
    rest)))
  }

  function OrderMark(o: FilledOrder, rest: Fields): (fs: Fields)
    ensures CleanFields(fs) <==> Clean(o.markQuality) && CleanFields(rest)
  {
    IntField("mark_price_tick", o.markPriceTick,
    IntField("unrealized_pnl_tick", o.unrealizedPnlTick,
    TextField("mark_quality", o.markQuality,
    IntField("event_ts_ns", o.eventTsNs,
    rest))))
  }

  function OrderDoc(o: FilledOrder): (d: Doc)
    ensures CleanDoc(d) <==> CleanOrder(o)
  {
    Obj(OrderIds(o, OrderSources(o, OrderInstrument(o, OrderFill(o, OrderPrices(o, OrderMark(o, NoFields)))))))
  }

  function PlanIds(p: TerminalPnL, rest: Fields): (fs: Fields)
    ensures CleanFields(fs) <==> CleanFields(rest)
  {
    IntField("plan_id", p.planId,
    IntField("bundle_id", p.bundleId,
    IntField("source_intent_id", p.sourceIntentId,
    IntField("approved_intent_id", p.approvedIntentId,
    IntField("reservation_id", p.reservationId,
    rest)))))
  }

  function PlanProgress(p: TerminalPnL, rest: Fields): (fs: Fields)
    ensures CleanFields(fs) <==> CleanFields(rest)
  {
    IntField("expected_child_orders", p.expectedChildOrders,
    IntField("filled_child_orders", p.filledChildOrders,
    FlagField("complete", p.complete,
    rest)))
  }

  function PlanSize(p: TerminalPnL, rest: Fields): (fs: Fields)
    ensures CleanFields(fs) <==> CleanFields(rest)
  {
    IntField("chosen_bundle_qty", p.chosenBundleQty,
    IntField("guaranteed_payout_tick", p.guaranteedPayoutTick,
    rest))
  }

  function PlanResult(p: TerminalPnL, rest: Fields): (fs: Fields)
    ensures CleanFields(fs) <==> CleanFields(rest)
  {
    IntField("expected_terminal_pnl_tick", p.expectedTerminalPnlTick,
    IntField("actual_buy_cost_tick", p.actualBuyCostTick,
    rest))
  }

  function PlanOutcome(p: TerminalPnL, rest: Fields): (fs: Fields)
    ensures CleanFields(fs) <==> CleanFields(rest)
  {
    IntField("terminal_pnl_tick", p.terminalPnlTick,
    IntField("updated_ts_ns", p.updatedTsNs,
    rest))
  }

  function PlanDoc(p: TerminalPnL): (d: Doc)
    ensures CleanDoc(d)
  {
    Obj(PlanIds(p, PlanProgress(p, PlanSize(p, PlanResult(p, PlanOutcome(p, NoFields))))))
  }

  function OrderItems(orders: seq<FilledOrder>): Items {
    if orders == [] then NoItems else Item(OrderDoc(orders[0]), OrderItems(orders[1..]))
  }

  lemma {:induction false} OrderItemsClean(orders: seq<FilledOrder>)
    ensures CleanItems(OrderItems(orders)) <==> CleanOrders(orders)
  {
    hide OrderDoc;
    if orders != [] {
      OrderItemsClean(orders[1..]);
      CleanOrdersSplit(orders);
    }
  }

  lemma CleanOrdersSplit(orders: seq<FilledOrder>)
    requires orders != []
    ensures CleanOrders(orders) <==> CleanOrder(orders[0]) && CleanOrders(orders[1..])
  {
    assert orders == [orders[0]] + orders[1..];
  }

  function PlanItems(plans: seq<TerminalPnL>): (xs: Items)
    ensures CleanItems(xs)
  {
    if plans == [] then NoItems else Item(PlanDoc(plans[0]), PlanItems(plans[1..]))
  }

  function RegimeFeed(r: Regime, rest: Fields): (fs: Fields)
    ensures CleanFields(fs) <==> CleanFields(rest)
  {
    TextField("data", DataName(r.data),
    TextField("liquidity", LiquidityName(r.liquidity),
    TextField("chain", ChainName(r.chain),
    rest)))
  }

  function RegimeTrading(r: Regime, rest: Fields): (fs: Fields)
    ensures CleanFields(fs) <==> CleanFields(rest)
  {
    TextField("signal", SignalName(r.signal),
    TextField("risk", RiskName(r.risk),
    TextField("execution", ExecutionName(r.execution),
    rest)))
  }

  function RegimeVersion(r: Regime, rest: Fields): (fs: Fields)
    ensures CleanFields(fs) <==> CleanFields(rest)
  {
    IntField("version", r.version,
    IntField("ts_ns", r.tsNs,
    rest))
  }

  function RegimeDoc(r: Regime): (d: Doc)
    ensures CleanDoc(d)
  {
    Obj(RegimeFeed(r, RegimeTrading(r, RegimeVersion(r, NoFields))))
  }

  function LatencyDoc(l: Latency): (d: Doc)
    ensures CleanDoc(d)
  {
    Obj(
    IntField("feed_to_state_ns", l.feedToStateNs,
    IntField("state_to_signal_ns", l.stateToSignalNs,
    IntField("signal_to_risk_ns", l.signalToRiskNs,
    LatencyEnd(l)))))
  }

  function LatencyEnd(l: Latency): (fs: Fields)
    ensures CleanFields(fs)
  {
    IntField("risk_to_execution_ns", l.riskToExecutionNs,
    IntField("end_to_end_ns", l.endToEndNs,
    NoFields))
  }

  function AccountDoc(a: Account): (d: Doc)
    ensures CleanDoc(d)
  {
    Obj(
    IntField("starting_cash_tick", a.startingCashTick,
    IntField("cash_balance_tick", a.cashBalanceTick,
    IntField("reserved_cash_tick", a.reservedCashTick,
    AccountPnl(a)))))
  }

  function AccountPnl(a: Account): (fs: Fields)
    ensures CleanFields(fs)
  {
    IntField("realized_pnl_tick", a.realizedPnlTick,
    IntField("unrealized_pnl_tick", a.unrealizedPnlTick,
    NoFields))
  }

  function SignalDoc(s: SignalCounts): (d: Doc)
    ensures CleanDoc(d)
  {
    Obj(
    IntField("intents_published", s.intentsPublished,
    IntField("paper_opportunities", s.paperOpportunities,
    IntField("rejected", s.rejected,
    IntField("output_hash", s.outputHash,
    NoFields)))))
  }

  function RiskDoc(r: RiskCounts): (d: Doc)
    ensures CleanDoc(d)
  {
    Obj(
    IntField("decisions", r.decisions,
    IntField("approved", r.approved,
    IntField("rejected", r.rejected,
    IntField("output_hash", r.outputHash,
    NoFields)))))
  }

  function ExecutionDoc(e: ExecutionCounts): (d: Doc)
    ensures CleanDoc(d)
  {
    Obj(
    IntField("plans_created", e.plansCreated,
    IntField("plans_filled", e.plansFilled,
    IntField("plans_failed", e.plansFailed,
    IntField("output_hash", e.outputHash,
    NoFields)))))
  }

  // ---- The loops that print the two lists ----

  lemma OrdersFrom(orders: seq<FilledOrder>, i: nat)
    requires i < |orders|
    ensures OrderItems(orders[i..]) == Item(OrderDoc(orders[i]), OrderItems(orders[i + 1..]))
  {
    assert orders[i..][0] == orders[i] && orders[i..][1..] == orders[i + 1..];
  }

  method FilledOrdersJson(orders: seq<FilledOrder>) returns (out: string)
    ensures out == Print(Arr(OrderItems(orders)))
  {
    hide OrderDoc;
    out := "[";
    var first := true;
    for i := 0 to |orders|
      invariant first <==> i == 0
      invariant out + RestOfList(first, OrderItems(orders[i..])) == Print(Arr(OrderItems(orders)))
    {
      OrdersFrom(orders, i);
      ListTurn(out, first, OrderItems(orders[i..]));
      if !first {
        out := out + ",";
      }
      first := false;
      out := out + Print(OrderDoc(orders[i]));
    }
    assert orders[|orders|..] == [];
    out := out + "]";
  }

  method TerminalPnlJson(plans: seq<TerminalPnL>) returns (out: string)
    ensures out == Print(Arr(PlanItems(plans)))
  {
    hide PlanDoc;
    out := "[";
    var first := true;
    for i := 0 to |plans|
      invariant first <==> i == 0
      invariant out + RestOfList(first, PlanItems(plans[i..])) == Print(Arr(PlanItems(plans)))
    {
      assert plans[i..][0] == plans[i] && plans[i..][1..] == plans[i + 1..];
      ListTurn(out, first, PlanItems(plans[i..]));
      if !first {
        out := out + ",";
      }
      first := false;
      out := out + Print(PlanDoc(plans[i]));
    }
    assert plans[|plans|..] == [];
    out := out + "]";
  }

  /** What is still to be printed after the items so far. */
  function RestOfList(first: bool, xs: Items): string {
    if first || xs.NoItems? then PrintItems(xs) else "," + PrintItems(xs)
  }

  lemma ListTurn(out: string, first: bool, xs: Items)
    requires xs.Item?
    ensures out + RestOfList(first, xs) ==
            (if first then out else out + ",") + Print(xs.value) + RestOfList(false, xs.next)
  {
    var tail := RestOfList(false, xs.next);
    assert PrintItems(xs) == Print(xs.value) + tail;
    if first {
      assert out + (Print(xs.value) + tail) == out + Print(xs.value) + tail;
    } else {
      assert out + ("," + (Print(xs.value) + tail)) == out + "," + Print(xs.value) + tail;
    }
  }

  // ---- The snapshot ----

  predicate CleanOrders(orders: seq<FilledOrder>) { forall k | 0 <= k < |orders| :: CleanOrder(orders[k]) }

  /** The eleven top-level fields around whatever documents stand in them. */
  function TopLevel(seqNo: int, tsNs: int, account: Doc, performance: Doc, regime: Doc, latency: Doc, rest: Fields)
    : (d: Doc)
    ensures CleanDoc(d) <==>
            CleanDoc(account) && CleanDoc(performance) && CleanDoc(regime) && CleanDoc(latency) && CleanFields(rest)
  {
    Obj(
    IntField("seq_no", seqNo,
    IntField("ts_ns", tsNs,
    DocField("account", account,
    DocField("performance", performance,
    DocField("regime", regime,
    DocField("latency", latency,
    rest)))))))
  }

  function Stages(signal: Doc, risk: Doc, execution: Doc, orders: Items, plans: Items): (fs: Fields)
    ensures CleanFields(fs) <==>
            CleanDoc(signal) && CleanDoc(risk) && CleanDoc(execution) && CleanItems(orders) && CleanItems(plans)
  {
    DocField("signal", signal,
    DocField("risk", risk,
    DocField("execution", execution,
    DocField("filled_orders", Arr(orders),
    DocField("terminal_pnl", Arr(plans),
    NoFields)))))
  }

  function SnapshotDoc(s: ShownSnapshot): Doc {
    TopLevel(
      s.seqNo, s.tsNs, AccountDoc(s.account), PerformanceDoc(s.performance), RegimeDoc(s.regime), LatencyDoc(s.latency),
      Stages(
        SignalDoc(s.signal), RiskDoc(s.risk), ExecutionDoc(s.execution),
        OrderItems(s.filledOrders), PlanItems(s.terminalPnl)))
  }

  function SnapshotJson(s: ShownSnapshot): string { Print(SnapshotDoc(s)) }

  // ---- What a reader makes of the printed snapshot ----

  const TOP_LEVEL_NAMES: set<string> :=
    { "seq_no", "ts_ns", "account", "performance", "regime", "latency", "signal", "risk", "execution",
      "filled_orders", "terminal_pnl" }

  function FieldNames(fs: Fields): set<string> {
    if fs.NoFields? then {} else {fs.name} + FieldNames(fs.next)
  }

  lemma {:induction false} MembersNameTheFields(fs: Fields)
    requires fs.Field?
    ensures Keys(Entries(MembersOf(fs))) == FieldNames(fs)
    decreases fs
  {
    EscapedIsWf(fs.name);
    var es := Entries(MembersOf(fs));
    assert es[0].key == fs.name;
    if fs.next.Field? {
      MembersNameTheFields(fs.next);
      assert es == [es[0]] + Entries(MembersOf(fs.next));
      assert Keys(es) == {fs.name} + Keys(Entries(MembersOf(fs.next)));
    }
  }

  lemma StagesNames(signal: Doc, risk: Doc, execution: Doc, orders: Items, plans: Items)
    ensures FieldNames(Stages(signal, risk, execution, orders, plans)) ==
            {"signal", "risk", "execution", "filled_orders", "terminal_pnl"}
  {
    var f5 := Field("terminal_pnl", Arr(plans), NoFields);
    var f4 := Field("filled_orders", Arr(orders), f5);
    var f3 := Field("execution", execution, f4);
    var f2 := Field("risk", risk, f3);
    assert FieldNames(f5) == {"terminal_pnl"};
    assert FieldNames(f4) == {"filled_orders"} + FieldNames(f5);
    assert FieldNames(f3) == {"execution"} + FieldNames(f4);
    assert FieldNames(f2) == {"risk"} + FieldNames(f3);
    assert FieldNames(Field("signal", signal, f2)) == {"signal"} + FieldNames(f2);
  }

  lemma TopLevelNames(seqNo: int, tsNs: int, account: Doc, performance: Doc, regime: Doc, latency: Doc, rest: Fields)
    ensures FieldNames(TopLevel(seqNo, tsNs, account, performance, regime, latency, rest).fields) ==
            {"seq_no", "ts_ns", "account", "performance", "regime", "latency"} + FieldNames(rest)
  {
    var f6 := Field("latency", latency, rest);
    var f5 := Field("regime", regime, f6);
    var f4 := Field("performance", performance, f5);
    var f3 := Field("account", account, f4);
    var f2 := IntField("ts_ns", tsNs, f3);
    assert FieldNames(f5) == {"regime"} + FieldNames(f6);
    assert FieldNames(f4) == {"performance"} + FieldNames(f5);
    assert FieldNames(f3) == {"account"} + FieldNames(f4);
    assert FieldNames(f2) == {"ts_ns"} + FieldNames(f3);
    assert FieldNames(IntField("seq_no", seqNo, f2)) == {"seq_no"} + FieldNames(f2);
  }

  /** Whatever documents stand in them, the fields have the eleven names. */
  lemma ElevenNames(seqNo: int, tsNs: int, account: Doc, performance: Doc, regime: Doc, latency: Doc,
                    signal: Doc, risk: Doc, execution: Doc, orders: Items, plans: Items)
    ensures var d := TopLevel(seqNo, tsNs, account, performance, regime, latency,
                              Stages(signal, risk, execution, orders, plans));
            d.Obj? && d.fields.Field? && FieldNames(d.fields) == TOP_LEVEL_NAMES
  {
    StagesNames(signal, risk, execution, orders, plans);
    TopLevelNames(seqNo, tsNs, account, performance, regime, latency, Stages(signal, risk, execution, orders, plans));
  }

  lemma ElevenFieldsAccepted(d: Doc)
    requires d.Obj? && d.fields.Field? && FieldNames(d.fields) == TOP_LEVEL_NAMES
    ensures var r := ParseDocument(Print(d));
      && r.Done? && r.value.IsObject()
      && EventsOf(r.value) == [EventSchema("unknown", false, false, TOP_LEVEL_NAMES)]
  {
    DocAccepted(d);
    NoTypeAmongNames();
    UntypedSchema(d.fields);
  }

  lemma {:induction false} AbsentKeyHasNoText(es: seq<Entry>, key: string)
    requires key !in Keys(es)
    ensures LastText(es, key).None?
    decreases |es|
  {
    if es != [] {
      var front, last := es[..|es| - 1], es[|es| - 1];
      assert last in es && forall e | e in front :: e in es;
      AbsentKeyHasNoText(front, key);
    }
  }

  /** An object whose fields announce no type is reported with its field names only. */
  lemma UntypedSchema(fs: Fields)
    requires fs.Field? && "event_type" !in FieldNames(fs) && "type" !in FieldNames(fs)
    ensures SchemaOf(TreeOf(Obj(fs))) == EventSchema("unknown", false, false, FieldNames(fs))
  {
    var es := Entries(MembersOf(fs));
    MembersNameTheFields(fs);
    NamesAndType(es);
    AbsentKeyHasNoText(es, "event_type");
    AbsentKeyHasNoText(es, "type");
  }

  lemma NoTypeAmongNames()
    ensures "event_type" !in TOP_LEVEL_NAMES && "type" !in TOP_LEVEL_NAMES
  {
    assert "type"[0] == 't' && "risk"[0] == 'r';
  }

  /** Every snapshot is accepted as one event whose fields are exactly the eleven printed names. */
  lemma SnapshotAccepted(s: ShownSnapshot)
    ensures var r := ParseDocument(SnapshotJson(s));
      && r.Done? && r.value.IsObject()
      && EventsOf(r.value) == [EventSchema("unknown", false, false, TOP_LEVEL_NAMES)]
  {
    ElevenNames(s.seqNo, s.tsNs, AccountDoc(s.account), PerformanceDoc(s.performance), RegimeDoc(s.regime),
      LatencyDoc(s.latency), SignalDoc(s.signal), RiskDoc(s.risk), ExecutionDoc(s.execution),
      OrderItems(s.filledOrders), PlanItems(s.terminalPnl));
    ElevenFieldsAccepted(SnapshotDoc(s));
  }

  lemma DocAccepted(d: Doc)
    requires d.Obj? || d.Arr?
    ensures ParseDocument(Print(d)) == Done(TreeOf(d), |Print(d)|)
  {
    PrintsItsTree(d);
    assert Print(d) == "" + Render(TreeOf(d)) + "";
    DocumentComplete(Print(d), "", TreeOf(d), "");
  }

  /** The printed snapshot is RFC 8259 text exactly when its metrics are finite and its order strings are clean. */
  lemma SnapshotIsRfcExactly(s: ShownSnapshot)
    ensures IsRfcText(SnapshotJson(s)) <==> FiniteMetrics(s.performance) && CleanOrders(s.filledOrders)
  {
    OrderItemsClean(s.filledOrders);
    PrintedIsRfcExactly(SnapshotDoc(s));
  }

  /** Every snapshot stops being RFC 8259 text when one metric is not a number. */
  lemma NotANumberIsNotRfc(s: ShownSnapshot)
    ensures var t := s.(performance := s.performance.(sharpe := NotANumber(false))); !IsRfcText(SnapshotJson(t))
  {
    hide IsRfcText, SnapshotJson;
    SnapshotIsRfcExactly(s.(performance := s.performance.(sharpe := NotANumber(false))));
  }

  lemma SnapshotIsOneLine(s: ShownSnapshot)
    ensures OneLine(SnapshotJson(s))
  {
    PrintedIsOneLine(SnapshotDoc(s));
  }
}
