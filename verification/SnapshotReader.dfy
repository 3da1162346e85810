/**
 A client of the dashboard: it parses the printed text and looks every value up by its name.  What is
 missing reads as a default, so getting every shown snapshot back means that each value stands under its
 name.  A double comes back as the token that was shown for it.
 */
module SnapshotReader {
  import opened JsonGrammar
  import opened JsonParser
  import opened JsonPrinter
  import opened PrintedNumbers
  import opened Dashboard

  /** The members of an object: decoded names and value trees. */
  datatype Cells = NoCells | Cell(name: string, value: Json, next: Cells)

  function MemberCells(ms: Members): Cells {
    var name := if ms.m.key.value.JString? then Decode(ms.m.key.value.pieces) else "";
    Cell(name, ms.m.item.value, if ms.MoreMembers? then MemberCells(ms.tail) else NoCells)
  }

  function Section(t: Json): Cells { if t.JObject? then MemberCells(t.members) else NoCells }

  // ---- Values ----

  /** The value of the first member with this name. */
  function Under(c: Cells, name: string): Json {
    if c.NoCells? then JEmptyObject("") else if c.name == name then c.value else Under(c.next, name)
  }

  /** The integer, double, flag or string whose printed tree this is. */
  ghost function WholeOf(t: Json): int { if n :| t == TreeOf(Num(Whole(n))) then n else 0 }

  ghost function DoubleOf(t: Json): Double { if d: Double :| t == TreeOf(Num(Real(d))) then d else NotANumber(false) }

  function FlagOf(t: Json): bool { t == JScalar("true") }

  function StringOf(t: Json): string { if t.JString? then Decode(t.pieces) else "" }

  ghost function Int(c: Cells, name: string): int { WholeOf(Under(c, name)) }

  ghost function Dbl(c: Cells, name: string): Double { DoubleOf(Under(c, name)) }

  function Flg(c: Cells, name: string): bool { FlagOf(Under(c, name)) }

  function Txt(c: Cells, name: string): string { StringOf(Under(c, name)) }

  function StatusNamed(s: string): MetricStatus {
    if s == "InsufficientData" then InsufficientData else if s == "InvalidInput" then InvalidInput else Ok
  }

  function DataNamed(s: string): DataRegime {
    if s == "Healthy" then DataHealthy else if s == "Stale" then DataStale else DataUnknown
  }

  function LiquidityNamed(s: string): LiquidityRegime {
    if s == "Healthy" then LiquidityHealthy
    else if s == "Degraded" then LiquidityDegraded
    else if s == "Crossed" then LiquidityCrossed
    else LiquidityUnknown
  }

  function ChainNamed(s: string): ChainRegime {
    if s == "Healthy" then ChainHealthy
    else if s == "Lagging" then ChainLagging
    else if s == "Error" then ChainError
    else ChainUnknown
  }

  function SignalNamed(s: string): SignalRegime {
    if s == "Healthy" then SignalHealthy
    else if s == "Quiet" then SignalQuiet
    else if s == "Rejecting" then SignalRejecting
    else SignalUnknown
  }

  function RiskNamed(s: string): RiskRegime {
    if s == "Healthy" then RiskHealthy
    else if s == "Constrained" then RiskConstrained
    else if s == "KillSwitch" then RiskKillSwitch
    else RiskUnknown
  }

  function ExecutionNamed(s: string): ExecutionRegime {
    if s == "Healthy" then ExecutionHealthy
    else if s == "PartialFill" then ExecutionPartialFill
    else if s == "HedgeRequired" then ExecutionHedgeRequired
    else ExecutionUnknown
  }

  // ---- Records ----

  ghost function ReadPerformance(c: Cells): ShownPerformance {
    Performance(Int(c, "intents_observed"), Int(c, "approvals_observed"), Int(c, "plans_observed"),
      Int(c, "execution_reports_observed"), Int(c, "filled_plans"), Int(c, "failed_plans"), Int(c, "gross_pnl_tick"),
      Int(c, "net_pnl_tick"), Int(c, "terminal_payout_tick"), Int(c, "terminal_cost_tick"),
      Int(c, "terminal_pnl_tick"), Int(c, "terminal_complete_plans"), Int(c, "max_drawdown_tick"),
      Dbl(c, "max_drawdown_ratio"), Int(c, "returns_count"), Dbl(c, "latest_return"),
      StatusNamed(Txt(c, "latest_return_status")), Dbl(c, "volatility"), StatusNamed(Txt(c, "volatility_status")),
      Dbl(c, "sharpe"),
      StatusNamed(Txt(c, "sharpe_status")), Dbl(c, "fill_rate"), StatusNamed(Txt(c, "fill_rate_status")),
      Dbl(c, "risk_approval_rate"),
      StatusNamed(Txt(c, "risk_approval_rate_status")), Dbl(c, "intent_conversion_rate"),
      StatusNamed(Txt(c, "intent_conversion_rate_status")), Dbl(c, "turnover"), StatusNamed(Txt(c, "turnover_status")),
      Int(c, "version"), Int(c, "updated_ts_ns"))
  }

  ghost function ReadFilledOrder(c: Cells): FilledOrder {
    FilledOrder(Int(c, "execution_report_id"), Int(c, "plan_id"), Int(c, "child_order_id"), Int(c, "bundle_id"),
      Int(c, "source_intent_id"), Int(c, "approved_intent_id"), Int(c, "reservation_id"), Txt(c, "market_id"),
      Txt(c, "asset_id"), Int(c, "market_index"), Int(c, "asset_index"), Txt(c, "side"), Int(c, "filled_lots"),
      Int(c, "remaining_lots"), Int(c, "avg_fill_price_tick"), Int(c, "limit_price_tick"),
      Int(c, "estimated_vwap_tick"), Int(c, "worst_price_tick"), Int(c, "notional_tick"), Int(c, "mark_price_tick"),
      Int(c, "unrealized_pnl_tick"), Txt(c, "mark_quality"), Int(c, "event_ts_ns"))
  }

  ghost function ReadTerminalPnL(c: Cells): TerminalPnL {
    TerminalPnL(Int(c, "plan_id"), Int(c, "bundle_id"), Int(c, "source_intent_id"), Int(c, "approved_intent_id"),
      Int(c, "reservation_id"), Int(c, "expected_child_orders"), Int(c, "filled_child_orders"), Flg(c, "complete"),
      Int(c, "chosen_bundle_qty"), Int(c, "guaranteed_payout_tick"), Int(c, "expected_terminal_pnl_tick"),
      Int(c, "actual_buy_cost_tick"), Int(c, "terminal_pnl_tick"), Int(c, "updated_ts_ns"))
  }

  ghost function ReadRegime(c: Cells): Regime {
    Regime(DataNamed(Txt(c, "data")), LiquidityNamed(Txt(c, "liquidity")), ChainNamed(Txt(c, "chain")),
      SignalNamed(Txt(c, "signal")), RiskNamed(Txt(c, "risk")), ExecutionNamed(Txt(c, "execution")),
      Int(c, "version"), Int(c, "ts_ns"))
  }

  ghost function ReadLatency(c: Cells): Latency {
    Latency(Int(c, "feed_to_state_ns"), Int(c, "state_to_signal_ns"), Int(c, "signal_to_risk_ns"),
      Int(c, "risk_to_execution_ns"), Int(c, "end_to_end_ns"))
  }

  ghost function ReadAccount(c: Cells): Account {
    Account(Int(c, "starting_cash_tick"), Int(c, "cash_balance_tick"), Int(c, "reserved_cash_tick"),
      Int(c, "realized_pnl_tick"), Int(c, "unrealized_pnl_tick"))
  }

  ghost function ReadSignalCounts(c: Cells): SignalCounts {
    SignalCounts(Int(c, "intents_published"), Int(c, "paper_opportunities"), Int(c, "rejected"),
      Int(c, "output_hash"))
  }

  ghost function ReadRiskCounts(c: Cells): RiskCounts {
    RiskCounts(Int(c, "decisions"), Int(c, "approved"), Int(c, "rejected"), Int(c, "output_hash"))
  }

  ghost function ReadExecutionCounts(c: Cells): ExecutionCounts {
    ExecutionCounts(Int(c, "plans_created"), Int(c, "plans_filled"), Int(c, "plans_failed"), Int(c, "output_hash"))
  }

  ghost function ReadOrders(ts: seq<Json>): (os: seq<FilledOrder>)
    ensures |os| == |ts|
  {
    if ts == [] then [] else [ReadFilledOrder(Section(ts[0]))] + ReadOrders(ts[1..])
  }

  ghost function ReadPlans(ts: seq<Json>): (ps: seq<TerminalPnL>)
    ensures |ps| == |ts|
  {
    if ts == [] then [] else [ReadTerminalPnL(Section(ts[0]))] + ReadPlans(ts[1..])
  }

  ghost function Natural(n: int): nat { if n < 0 then 0 else n }

  ghost function ReadSnapshot(t: Json): ShownSnapshot {
    var c := Section(t);
    Snapshot(
      Natural(Int(c, "seq_no")), Int(c, "ts_ns"), ReadAccount(Section(Under(c, "account"))),
      ReadPerformance(Section(Under(c, "performance"))), ReadRegime(Section(Under(c, "regime"))),
      ReadLatency(Section(Under(c, "latency"))), ReadSignalCounts(Section(Under(c, "signal"))),
      ReadRiskCounts(Section(Under(c, "risk"))), ReadExecutionCounts(Section(Under(c, "execution"))),
      ReadOrders(ArrayValues(Under(c, "filled_orders"))), ReadPlans(ArrayValues(Under(c, "terminal_pnl"))))
  }

  // ---- What the reader finds in what was printed ----

  function Printed(fs: Fields): Cells {
    if fs.NoFields? then NoCells else Cell(fs.name, TreeOf(fs.value), Printed(fs.next))
  }

  lemma {:induction false} MembersArePrinted(fs: Fields)
    requires fs.Field?
    ensures MemberCells(MembersOf(fs)) == Printed(fs)
    decreases fs
  {
    EscapedIsWf(fs.name);
    if fs.next.Field? { MembersArePrinted(fs.next); }
  }

  lemma SectionIsPrinted(d: Doc)
    requires d.Obj?
    ensures Section(TreeOf(d)) == Printed(d.fields)
  {
    if d.fields.Field? { MembersArePrinted(d.fields); }
  }

  lemma {:induction false} PrintedUnder(name: string, v: Doc, next: Fields, key: string)
    ensures Under(Printed(Field(name, v, next)), key) == if name == key then TreeOf(v) else Under(Printed(next), key)
  {
  }

  lemma WholeReads(n: int)
    ensures WholeOf(TreeOf(Num(Whole(n)))) == n
  {
    forall m | TreeOf(Num(Whole(m))) == TreeOf(Num(Whole(n))) ensures m == n { WholeDetermined(m, n); }
  }

  lemma DoubleReads(d: Double)
    ensures DoubleOf(TreeOf(Num(Real(d)))) == d
  {
    forall e: Double | TreeOf(Num(Real(e))) == TreeOf(Num(Real(d))) ensures e == d { TokenDetermined(e, d); }
  }

  lemma FlagReads(b: bool)
    ensures FlagOf(TreeOf(Num(Flag(b)))) == b
  {
    assert "true"[0] != "false"[0];
  }

  lemma TextReads(s: string)
    ensures StringOf(TreeOf(Text(s))) == s
  {
    EscapedIsWf(s);
  }

  /** Reading a member by its name gives the value that was printed under it. */
  lemma Reads()
    ensures forall name, v, next, key {:trigger Under(Printed(Field(name, v, next)), key)} ::
              Under(Printed(Field(name, v, next)), key) == if name == key then TreeOf(v) else Under(Printed(next), key)
    ensures forall n {:trigger TreeOf(Num(Whole(n)))} :: WholeOf(TreeOf(Num(Whole(n)))) == n
    ensures forall d: Double {:trigger TreeOf(Num(Real(d)))} :: DoubleOf(TreeOf(Num(Real(d)))) == d
    ensures forall b {:trigger TreeOf(Num(Flag(b)))} :: FlagOf(TreeOf(Num(Flag(b)))) == b
    ensures forall s {:trigger TreeOf(Text(s))} :: StringOf(TreeOf(Text(s))) == s
  {
    forall n ensures WholeOf(TreeOf(Num(Whole(n)))) == n { WholeReads(n); }
    forall d: Double ensures DoubleOf(TreeOf(Num(Real(d)))) == d { DoubleReads(d); }
    forall b ensures FlagOf(TreeOf(Num(Flag(b)))) == b { FlagReads(b); }
    forall s ensures StringOf(TreeOf(Text(s))) == s { TextReads(s); }
    forall name, v, next, key
      ensures Under(Printed(Field(name, v, next)), key) == if name == key then TreeOf(v) else Under(Printed(next), key)
    {
      PrintedUnder(name, v, next, key);
    }
  }

  /** Every name of an enumeration value is read as that value. */
  lemma NamesRead()
    ensures forall x {:trigger StatusName(x)} :: StatusNamed(StatusName(x)) == x
    ensures forall x {:trigger DataName(x)} :: DataNamed(DataName(x)) == x
    ensures forall x {:trigger LiquidityName(x)} :: LiquidityNamed(LiquidityName(x)) == x
    ensures forall x {:trigger ChainName(x)} :: ChainNamed(ChainName(x)) == x
    ensures forall x {:trigger SignalName(x)} :: SignalNamed(SignalName(x)) == x
    ensures forall x {:trigger RiskName(x)} :: RiskNamed(RiskName(x)) == x
    ensures forall x {:trigger ExecutionName(x)} :: ExecutionNamed(ExecutionName(x)) == x
  {
    forall x ensures StatusNamed(StatusName(x)) == x { StatusNamedReads(x); }
    forall x ensures DataNamed(DataName(x)) == x { DataNamedReads(x); }
    forall x ensures LiquidityNamed(LiquidityName(x)) == x { LiquidityNamedReads(x); }
    forall x ensures ChainNamed(ChainName(x)) == x { ChainNamedReads(x); }
    forall x ensures SignalNamed(SignalName(x)) == x { SignalNamedReads(x); }
    forall x ensures RiskNamed(RiskName(x)) == x { RiskNamedReads(x); }
    forall x ensures ExecutionNamed(ExecutionName(x)) == x { ExecutionNamedReads(x); }
  }

  lemma StatusNamedReads(x: MetricStatus)
    ensures StatusNamed(StatusName(x)) == x
  {
  }

  lemma DataNamedReads(x: DataRegime)
    ensures DataNamed(DataName(x)) == x
  {
  }

  lemma LiquidityNamedReads(x: LiquidityRegime)
    ensures LiquidityNamed(LiquidityName(x)) == x
  {
  }

  lemma ChainNamedReads(x: ChainRegime)
    ensures ChainNamed(ChainName(x)) == x
  {
  }

  lemma SignalNamedReads(x: SignalRegime)
    ensures SignalNamed(SignalName(x)) == x
  {
  }

  lemma RiskNamedReads(x: RiskRegime)
    ensures RiskNamed(RiskName(x)) == x
  {
  }

  lemma ExecutionNamedReads(x: ExecutionRegime)
    ensures ExecutionNamed(ExecutionName(x)) == x
  {
  }

  /** The words printed for the enumeration values. */
  lemma EnumerationWords()
    ensures StatusName(Ok) == "Ok" && StatusName(InsufficientData) == "InsufficientData"
    ensures StatusName(InvalidInput) == "InvalidInput"
    ensures DataName(DataUnknown) == "Unknown" && DataName(DataHealthy) == "Healthy" && DataName(DataStale) == "Stale"
    ensures LiquidityName(LiquidityUnknown) == "Unknown" && LiquidityName(LiquidityHealthy) == "Healthy"
    ensures LiquidityName(LiquidityDegraded) == "Degraded" && LiquidityName(LiquidityCrossed) == "Crossed"
    ensures ChainName(ChainUnknown) == "Unknown" && ChainName(ChainHealthy) == "Healthy"
    ensures ChainName(ChainLagging) == "Lagging" && ChainName(ChainError) == "Error"
    ensures SignalName(SignalUnknown) == "Unknown" && SignalName(SignalHealthy) == "Healthy"
    ensures SignalName(SignalQuiet) == "Quiet" && SignalName(SignalRejecting) == "Rejecting"
    ensures RiskName(RiskUnknown) == "Unknown" && RiskName(RiskHealthy) == "Healthy"
    ensures RiskName(RiskConstrained) == "Constrained" && RiskName(RiskKillSwitch) == "KillSwitch"
    ensures ExecutionName(ExecutionUnknown) == "Unknown" && ExecutionName(ExecutionHealthy) == "Healthy"
    ensures ExecutionName(ExecutionPartialFill) == "PartialFill"
    ensures ExecutionName(ExecutionHedgeRequired) == "HedgeRequired"
  {
  }

  lemma AccountUnderNames(a: Account)
    ensures var c := Printed(AccountDoc(a).fields);
      && Int(c, "starting_cash_tick") == a.startingCashTick && Int(c, "cash_balance_tick") == a.cashBalanceTick
      && Int(c, "reserved_cash_tick") == a.reservedCashTick && Int(c, "realized_pnl_tick") == a.realizedPnlTick
      && Int(c, "unrealized_pnl_tick") == a.unrealizedPnlTick
  {
    hide Printed, WholeOf, DoubleOf, FlagOf, StringOf, CleanFields, Under, TreeOf;
    Reads();
  }

  lemma AccountReadsBack(a: Account)
    ensures ReadAccount(Printed(AccountDoc(a).fields)) == a
  {
    hide AccountDoc, Printed, Int, Txt, Under;
    AccountUnderNames(a);
  }

  lemma LatencyUnderNames(l: Latency)
    ensures var c := Printed(LatencyDoc(l).fields);
      && Int(c, "feed_to_state_ns") == l.feedToStateNs && Int(c, "state_to_signal_ns") == l.stateToSignalNs
      && Int(c, "signal_to_risk_ns") == l.signalToRiskNs && Int(c, "risk_to_execution_ns") == l.riskToExecutionNs
      && Int(c, "end_to_end_ns") == l.endToEndNs
  {
    hide Printed, WholeOf, DoubleOf, FlagOf, StringOf, CleanFields, Under, TreeOf;
    Reads();
  }

  lemma LatencyReadsBack(l: Latency)
    ensures ReadLatency(Printed(LatencyDoc(l).fields)) == l
  {
    hide LatencyDoc, Printed, Int, Txt, Under;
    LatencyUnderNames(l);
  }

  lemma SignalUnderNames(s: SignalCounts)
    ensures var c := Printed(SignalDoc(s).fields);
      && Int(c, "intents_published") == s.intentsPublished
      && Int(c, "paper_opportunities") == s.paperOpportunities && Int(c, "rejected") == s.rejected
      && Int(c, "output_hash") == s.outputHash
  {
    hide Printed, WholeOf, DoubleOf, FlagOf, StringOf, CleanFields, Under, TreeOf;
    Reads();
  }

  lemma SignalReadsBack(s: SignalCounts)
    ensures ReadSignalCounts(Printed(SignalDoc(s).fields)) == s
  {
    hide SignalDoc, Printed, Int, Txt, Under;
    SignalUnderNames(s);
  }

  lemma RiskUnderNames(r: RiskCounts)
    ensures var c := Printed(RiskDoc(r).fields);
      && Int(c, "decisions") == r.decisions && Int(c, "approved") == r.approved
      && Int(c, "rejected") == r.rejected && Int(c, "output_hash") == r.outputHash
  {
    hide Printed, WholeOf, DoubleOf, FlagOf, StringOf, CleanFields, Under, TreeOf;
    Reads();
  }

  lemma RiskReadsBack(r: RiskCounts)
    ensures ReadRiskCounts(Printed(RiskDoc(r).fields)) == r
  {
    hide RiskDoc, Printed, Int, Txt, Under;
    RiskUnderNames(r);
  }

  lemma ExecutionUnderNames(e: ExecutionCounts)
    ensures var c := Printed(ExecutionDoc(e).fields);
      && Int(c, "plans_created") == e.plansCreated && Int(c, "plans_filled") == e.plansFilled
      && Int(c, "plans_failed") == e.plansFailed && Int(c, "output_hash") == e.outputHash
  {
    hide Printed, WholeOf, DoubleOf, FlagOf, StringOf, CleanFields, Under, TreeOf;
    Reads();
  }

  lemma ExecutionReadsBack(e: ExecutionCounts)
    ensures ReadExecutionCounts(Printed(ExecutionDoc(e).fields)) == e
  {
    hide ExecutionDoc, Printed, Int, Txt, Under;
    ExecutionUnderNames(e);
  }

  lemma RegimeUnderNames(r: Regime)
    ensures var c := Printed(RegimeDoc(r).fields);
      && Txt(c, "data") == DataName(r.data) && Txt(c, "liquidity") == LiquidityName(r.liquidity)
      && Txt(c, "chain") == ChainName(r.chain) && Txt(c, "signal") == SignalName(r.signal)
      && Txt(c, "risk") == RiskName(r.risk) && Txt(c, "execution") == ExecutionName(r.execution)
      && Int(c, "version") == r.version && Int(c, "ts_ns") == r.tsNs
  {
    hide DataName, LiquidityName, ChainName, SignalName, RiskName, ExecutionName;
    hide Printed, WholeOf, DoubleOf, FlagOf, StringOf, CleanFields, Under, TreeOf;
    Reads();
  }

  lemma RegimeReadsBack(r: Regime)
    ensures ReadRegime(Printed(RegimeDoc(r).fields)) == r
  {
    hide RegimeDoc, Printed, Int, Txt, Under;
    hide DataName, LiquidityName, ChainName, SignalName, RiskName, ExecutionName;
    hide DataNamed, LiquidityNamed, ChainNamed, SignalNamed, RiskNamed, ExecutionNamed;
    NamesRead();
    RegimeUnderNames(r);
  }

  lemma FlagTree(b: bool)
    ensures TreeOf(Num(Flag(b))) == JScalar(if b then "true" else "false")
  {
  }

  lemma PlanUnderNames(p: TerminalPnL)
    ensures var c := Printed(PlanDoc(p).fields);
      && Int(c, "plan_id") == p.planId && Int(c, "bundle_id") == p.bundleId
      && Int(c, "source_intent_id") == p.sourceIntentId && Int(c, "approved_intent_id") == p.approvedIntentId
      && Int(c, "reservation_id") == p.reservationId && Int(c, "expected_child_orders") == p.expectedChildOrders
      && Int(c, "filled_child_orders") == p.filledChildOrders
      && Under(c, "complete") == JScalar(if p.complete then "true" else "false")
      && Int(c, "chosen_bundle_qty") == p.chosenBundleQty
      && Int(c, "guaranteed_payout_tick") == p.guaranteedPayoutTick
      && Int(c, "expected_terminal_pnl_tick") == p.expectedTerminalPnlTick
      && Int(c, "actual_buy_cost_tick") == p.actualBuyCostTick
      && Int(c, "terminal_pnl_tick") == p.terminalPnlTick && Int(c, "updated_ts_ns") == p.updatedTsNs
  {
    hide Printed, WholeOf, DoubleOf, FlagOf, StringOf, CleanFields, Under, TreeOf;
    Reads();
    FlagTree(p.complete);
  }

  lemma PlanReadsBack(p: TerminalPnL)
    ensures ReadTerminalPnL(Printed(PlanDoc(p).fields)) == p
  {
    hide PlanDoc, Printed, Int, Txt, Under;
    FlagReads(p.complete);
    PlanUnderNames(p);
  }

  lemma OrderUnderNames(o: FilledOrder)
    ensures var c := Printed(OrderDoc(o).fields);
      && Int(c, "execution_report_id") == o.executionReportId && Int(c, "plan_id") == o.planId
      && Int(c, "child_order_id") == o.childOrderId && Int(c, "bundle_id") == o.bundleId
      && Int(c, "source_intent_id") == o.sourceIntentId && Int(c, "approved_intent_id") == o.approvedIntentId
      && Int(c, "reservation_id") == o.reservationId && Txt(c, "market_id") == o.marketId
      && Txt(c, "asset_id") == o.assetId && Int(c, "market_index") == o.marketIndex
      && Int(c, "asset_index") == o.assetIndex && Txt(c, "side") == o.side
      && Int(c, "filled_lots") == o.filledLots && Int(c, "remaining_lots") == o.remainingLots
      && Int(c, "avg_fill_price_tick") == o.avgFillPriceTick && Int(c, "limit_price_tick") == o.limitPriceTick
      && Int(c, "estimated_vwap_tick") == o.estimatedVwapTick && Int(c, "worst_price_tick") == o.worstPriceTick
      && Int(c, "notional_tick") == o.notionalTick && Int(c, "mark_price_tick") == o.markPriceTick
      && Int(c, "unrealized_pnl_tick") == o.unrealizedPnlTick && Txt(c, "mark_quality") == o.markQuality
      && Int(c, "event_ts_ns") == o.eventTsNs
  {
    hide Printed, WholeOf, DoubleOf, FlagOf, StringOf, CleanFields, Under, TreeOf;
    Reads();
  }

  lemma OrderReadsBack(o: FilledOrder)
    ensures ReadFilledOrder(Printed(OrderDoc(o).fields)) == o
  {
    hide OrderDoc, Printed, Int, Txt, Under;
    OrderUnderNames(o);
  }

  lemma CountsUnderNames(p: ShownPerformance)
    ensures var c := Printed(PerformanceDoc(p).fields);
      && Int(c, "intents_observed") == p.intentsObserved && Int(c, "approvals_observed") == p.approvalsObserved
      && Int(c, "plans_observed") == p.plansObserved
      && Int(c, "execution_reports_observed") == p.executionReportsObserved
      && Int(c, "filled_plans") == p.filledPlans && Int(c, "failed_plans") == p.failedPlans
      && Int(c, "gross_pnl_tick") == p.grossPnlTick && Int(c, "net_pnl_tick") == p.netPnlTick
      && Int(c, "terminal_payout_tick") == p.terminalPayoutTick
      && Int(c, "terminal_cost_tick") == p.terminalCostTick && Int(c, "terminal_pnl_tick") == p.terminalPnlTick
      && Int(c, "terminal_complete_plans") == p.terminalCompletePlans
      && Int(c, "max_drawdown_tick") == p.maxDrawdownTick
  {
    hide StatusName;
    hide Printed, WholeOf, DoubleOf, FlagOf, StringOf, CleanFields, Under, TreeOf;
    Reads();
  }

  lemma ReturnsUnderNames(p: ShownPerformance)
    ensures var c := Printed(PerformanceDoc(p).fields);
      && Dbl(c, "max_drawdown_ratio") == p.maxDrawdownRatio && Int(c, "returns_count") == p.returnsCount
      && Dbl(c, "latest_return") == p.latestReturn
      && Txt(c, "latest_return_status") == StatusName(p.latestReturnStatus)
      && Dbl(c, "volatility") == p.volatility && Txt(c, "volatility_status") == StatusName(p.volatilityStatus)
      && Dbl(c, "sharpe") == p.sharpe && Txt(c, "sharpe_status") == StatusName(p.sharpeStatus)
  {
    hide StatusName;
    hide Printed, WholeOf, DoubleOf, FlagOf, StringOf, CleanFields, Under, TreeOf;
    Reads();
  }

  lemma RatesUnderNames(p: ShownPerformance)
    ensures var c := Printed(PerformanceDoc(p).fields);
      && Dbl(c, "fill_rate") == p.fillRate && Txt(c, "fill_rate_status") == StatusName(p.fillRateStatus)
      && Dbl(c, "risk_approval_rate") == p.riskApprovalRate
      && Txt(c, "risk_approval_rate_status") == StatusName(p.riskApprovalRateStatus)
      && Dbl(c, "intent_conversion_rate") == p.intentConversionRate
      && Txt(c, "intent_conversion_rate_status") == StatusName(p.intentConversionRateStatus)
      && Dbl(c, "turnover") == p.turnover && Txt(c, "turnover_status") == StatusName(p.turnoverStatus)
      && Int(c, "version") == p.version && Int(c, "updated_ts_ns") == p.updatedTsNs
  {
    hide StatusName;
    hide Printed, WholeOf, DoubleOf, FlagOf, StringOf, CleanFields, Under, TreeOf;
    Reads();
  }

  lemma PerformanceReadsBack(p: ShownPerformance)
    ensures ReadPerformance(Printed(PerformanceDoc(p).fields)) == p
  {
    hide PerformanceDoc, Int, Dbl, Txt, StatusName, StatusNamed, Printed;
    NamesRead();
    CountsUnderNames(p);
    ReturnsUnderNames(p);
    RatesUnderNames(p);
  }

  // ---- Lists ----

  lemma ItemsList(xs: Items)
    requires xs.Item?
    ensures ArrayValues(TreeOf(Arr(xs))) == [TreeOf(xs.value)] + ArrayValues(TreeOf(Arr(xs.next)))
  {
  }

  lemma {:induction false} OrdersReadBack(os: seq<FilledOrder>)
    ensures ReadOrders(ArrayValues(TreeOf(Arr(OrderItems(os))))) == os
    decreases |os|
  {
    hide OrderDoc, ReadFilledOrder, Section, TreeOf, ArrayValues;
    if os == [] {
      NothingListed();
    } else {
      var xs := OrderItems(os);
      ItemsList(xs);
      OrdersReadBack(os[1..]);
      OrderSection(os[0]);
      ConsOrders(TreeOf(xs.value), ArrayValues(TreeOf(Arr(xs.next))));
    }
  }

  lemma {:induction false} PlansReadBack(ps: seq<TerminalPnL>)
    ensures ReadPlans(ArrayValues(TreeOf(Arr(PlanItems(ps))))) == ps
    decreases |ps|
  {
    hide PlanDoc, ReadTerminalPnL, Section, TreeOf, ArrayValues;
    if ps == [] {
      NothingListed();
    } else {
      var xs := PlanItems(ps);
      ItemsList(xs);
      PlansReadBack(ps[1..]);
      PlanSection(ps[0]);
      ConsPlans(TreeOf(xs.value), ArrayValues(TreeOf(Arr(xs.next))));
    }
  }

  lemma OrderSection(o: FilledOrder)
    ensures ReadFilledOrder(Section(TreeOf(OrderDoc(o)))) == o
  {
    hide ReadFilledOrder, Section, TreeOf, Printed;
    SectionIsPrinted(OrderDoc(o));
    OrderReadsBack(o);
  }

  lemma PlanSection(p: TerminalPnL)
    ensures ReadTerminalPnL(Section(TreeOf(PlanDoc(p)))) == p
  {
    hide ReadTerminalPnL, Section, TreeOf, Printed;
    SectionIsPrinted(PlanDoc(p));
    PlanReadsBack(p);
  }

  lemma NothingListed()
    ensures ArrayValues(TreeOf(Arr(NoItems))) == []
  {
  }

  lemma ConsOrders(t: Json, ts: seq<Json>)
    ensures ReadOrders([t] + ts) == [ReadFilledOrder(Section(t))] + ReadOrders(ts)
  {
    hide ReadFilledOrder, Section;
    assert ([t] + ts)[1..] == ts;
  }

  lemma ConsPlans(t: Json, ts: seq<Json>)
    ensures ReadPlans([t] + ts) == [ReadTerminalPnL(Section(t))] + ReadPlans(ts)
  {
    hide ReadTerminalPnL, Section;
    assert ([t] + ts)[1..] == ts;
  }

  // ---- The snapshot ----

  /** Each document of the top level stands under its name. */
  lemma TopLevelReads(seqNo: int, tsNs: int, account: Doc, performance: Doc, regime: Doc, latency: Doc,
                      signal: Doc, risk: Doc, execution: Doc, orders: Items, plans: Items)
    ensures var c := Printed(TopLevel(seqNo, tsNs, account, performance, regime, latency,
                                      Stages(signal, risk, execution, orders, plans)).fields);
      && Int(c, "seq_no") == seqNo && Int(c, "ts_ns") == tsNs
      && Under(c, "account") == TreeOf(account) && Under(c, "performance") == TreeOf(performance)
      && Under(c, "regime") == TreeOf(regime) && Under(c, "latency") == TreeOf(latency)
      && Under(c, "signal") == TreeOf(signal) && Under(c, "risk") == TreeOf(risk) && Under(c, "execution") == TreeOf(execution)
      && Under(c, "filled_orders") == TreeOf(Arr(orders)) && Under(c, "terminal_pnl") == TreeOf(Arr(plans))
  {
    hide Printed, WholeOf, CleanFields, CleanDoc, Under, TreeOf;
    Reads();
  }

  lemma SectionsReadBack(s: ShownSnapshot)
    ensures ReadAccount(Section(TreeOf(AccountDoc(s.account)))) == s.account
    ensures ReadPerformance(Section(TreeOf(PerformanceDoc(s.performance)))) == s.performance
    ensures ReadRegime(Section(TreeOf(RegimeDoc(s.regime)))) == s.regime
    ensures ReadLatency(Section(TreeOf(LatencyDoc(s.latency)))) == s.latency
  {
    hide ReadAccount, ReadPerformance, ReadRegime, ReadLatency, Section, TreeOf, Printed;
    SectionIsPrinted(AccountDoc(s.account));
    SectionIsPrinted(PerformanceDoc(s.performance));
    SectionIsPrinted(RegimeDoc(s.regime));
    SectionIsPrinted(LatencyDoc(s.latency));
    AccountReadsBack(s.account);
    PerformanceReadsBack(s.performance);
    RegimeReadsBack(s.regime);
    LatencyReadsBack(s.latency);
  }

  lemma StagesReadBack(s: ShownSnapshot)
    ensures ReadSignalCounts(Section(TreeOf(SignalDoc(s.signal)))) == s.signal
    ensures ReadRiskCounts(Section(TreeOf(RiskDoc(s.risk)))) == s.risk
    ensures ReadExecutionCounts(Section(TreeOf(ExecutionDoc(s.execution)))) == s.execution
  {
    hide ReadSignalCounts, ReadRiskCounts, ReadExecutionCounts, Section, TreeOf, Printed;
    SectionIsPrinted(SignalDoc(s.signal));
    SectionIsPrinted(RiskDoc(s.risk));
    SectionIsPrinted(ExecutionDoc(s.execution));
    SignalReadsBack(s.signal);
    RiskReadsBack(s.risk);
    ExecutionReadsBack(s.execution);
  }

  lemma TreeReadsBack(s: ShownSnapshot)
    ensures ReadSnapshot(TreeOf(SnapshotDoc(s))) == s
  {
    hide AccountDoc, PerformanceDoc, RegimeDoc, LatencyDoc, SignalDoc, RiskDoc, ExecutionDoc, OrderItems, PlanItems;
    hide ReadAccount, ReadPerformance, ReadRegime, ReadLatency, ReadSignalCounts, ReadRiskCounts, ReadExecutionCounts;
    hide TopLevel, Stages, Section, Printed, TreeOf, Under, Int, ArrayValues, ReadOrders, ReadPlans;
    TopLevelIsObject(s);
    SectionIsPrinted(SnapshotDoc(s));
    TopLevelReads(s.seqNo, s.tsNs, AccountDoc(s.account), PerformanceDoc(s.performance), RegimeDoc(s.regime),
      LatencyDoc(s.latency), SignalDoc(s.signal), RiskDoc(s.risk), ExecutionDoc(s.execution),
      OrderItems(s.filledOrders), PlanItems(s.terminalPnl));
    SectionsReadBack(s);
    StagesReadBack(s);
    OrdersReadBack(s.filledOrders);
    PlansReadBack(s.terminalPnl);
  }

  lemma TopLevelIsObject(s: ShownSnapshot)
    ensures SnapshotDoc(s).Obj?
  {
    hide AccountDoc, PerformanceDoc, RegimeDoc, LatencyDoc, Stages;
  }

  /** A client that parses the printed text and reads the members by name gets everything that was shown. */
  lemma SnapshotReadsBack(s: ShownSnapshot)
    ensures var r := ParseDocument(SnapshotJson(s)); r.Done? && ReadSnapshot(r.value) == s
  {
    hide SnapshotDoc, ReadSnapshot, TreeOf, Print, ParseDocument;
    TopLevelIsObject(s);
    DocAccepted(SnapshotDoc(s));
    TreeReadsBack(s);
  }

  /** So the printed text determines what was shown. */
  lemma SnapshotDetermined(s: ShownSnapshot, t: ShownSnapshot)
    ensures SnapshotJson(s) == SnapshotJson(t) <==> s == t
  {
    hide SnapshotJson, ReadSnapshot, ParseDocument;
    SnapshotReadsBack(s);
    SnapshotReadsBack(t);
  }
}
