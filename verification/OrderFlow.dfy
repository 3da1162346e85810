/**
 The spot order-flow window of `research/poly_btc_above_fair_research.py`: each usable best
 quote adds one signed flow, events older than ten seconds are popped from the front of the
 list, and a snapshot sums the last 100 and 500 milliseconds.  Floats are reals; a number
 that is missing or not finite is `None`.
 */
module OrderFlow {
  import opened Options

  const FLOW_WINDOW_NS: int := 10_000_000_000
  const SHORT_NS: int := 100_000_000
  const LONG_NS: int := 500_000_000

  datatype Quote = Quote(bid: real, ask: real, bidQty: real, askQty: real)

  /** A book-ticker message with the clock reading taken while handling it; clocks may go back. */
  datatype Tick = Tick(ts: int, bid: Option<real>, ask: Option<real>, bidQty: Option<real>, askQty: Option<real>)

  datatype Event = Event(ts: int, value: real)

  predicate Usable(t: Tick) { Positive(t.bid) && Positive(t.ask) && Positive(t.bidQty) && Positive(t.askQty) }

  function QuoteOf(t: Tick): Quote
    requires Usable(t)
  {
    Quote(t.bid.value, t.ask.value, t.bidQty.value, t.askQty.value)
  }

  function Mid(q: Quote): real { (q.bid + q.ask) / 2.0 }

  /** Bought minus sold: what the bid side gained less what the ask side gained. */
  function Flow(p: Quote, q: Quote): real {
    SideFlow(p.bid, p.bidQty, q.bid, q.bidQty) - SideFlow(-p.ask, p.askQty, -q.ask, q.askQty)
  }

  /** The gain of one side, for a price that is better when higher. */
  function SideFlow(price: real, qty: real, nextPrice: real, nextQty: real): real {
    (if nextPrice >= price then nextQty else 0.0) - (if nextPrice <= price then qty else 0.0)
  }

  /** Each side by the move of its price: upward counts as buying, downward as selling. */
  lemma FlowMeaning(p: Quote, q: Quote)
    ensures q.bid > p.bid && q.ask > p.ask ==> Flow(p, q) == q.bidQty + p.askQty
    ensures q.bid > p.bid && q.ask == p.ask ==> Flow(p, q) == q.bidQty + (p.askQty - q.askQty)
    ensures q.bid > p.bid && q.ask < p.ask ==> Flow(p, q) == q.bidQty - q.askQty
    ensures q.bid == p.bid && q.ask > p.ask ==> Flow(p, q) == (q.bidQty - p.bidQty) + p.askQty
    ensures q.bid == p.bid && q.ask == p.ask ==> Flow(p, q) == (q.bidQty - p.bidQty) + (p.askQty - q.askQty)
    ensures q.bid == p.bid && q.ask < p.ask ==> Flow(p, q) == (q.bidQty - p.bidQty) - q.askQty
    ensures q.bid < p.bid && q.ask > p.ask ==> Flow(p, q) == p.askQty - p.bidQty
    ensures q.bid < p.bid && q.ask == p.ask ==> Flow(p, q) == (p.askQty - q.askQty) - p.bidQty
    ensures q.bid < p.bid && q.ask < p.ask ==> Flow(p, q) == -p.bidQty - q.askQty
  {
  }

  /** A bid that rises under an unchanged ask is buying, an ask that falls over an unchanged bid is selling. */
  lemma MovesHaveTheirSign(p: Quote, q: Quote)
    requires p.bidQty > 0.0 && p.askQty > 0.0 && q.bidQty > 0.0 && q.askQty > 0.0
    ensures q.bid > p.bid && q.ask == p.ask && q.askQty == p.askQty ==> Flow(p, q) > 0.0
    ensures q.bid == p.bid && q.bidQty == p.bidQty && q.ask < p.ask ==> Flow(p, q) < 0.0
    ensures q.bid > p.bid && q.ask > p.ask ==> Flow(p, q) > 0.0
    ensures q.bid < p.bid && q.ask < p.ask ==> Flow(p, q) < 0.0
  {
    FlowMeaning(p, q);
  }

  /** The mid price is as far above the bid as it is below the ask. */
  lemma MidIsHalfWay(q: Quote)
    ensures Mid(q) - q.bid == q.ask - Mid(q)
  {
  }

  datatype Oracle = Oracle(volWindowNs: int, last: Option<Quote>, mids: seq<Event>, flows: seq<Event>, ticks: nat)

  function Start(volWindowNs: int): Oracle { Oracle(volWindowNs, None, [], [], 0) }

  function MidWindow(volWindowNs: int): int { if volWindowNs >= FLOW_WINDOW_NS then volWindowNs else FLOW_WINDOW_NS }

  /** Without the front part that is before the cutoff. */
  function Pruned(events: seq<Event>, cutoff: int): (r: seq<Event>)
    ensures |r| <= |events|
  {
    if events != [] && events[0].ts < cutoff then Pruned(events[1..], cutoff) else events
  }

  lemma {:induction false} PrunedMeaning(events: seq<Event>, cutoff: int)
    ensures var r := Pruned(events, cutoff); var k := |events| - |r|;
            && r == events[k..]
            && (forall j | 0 <= j < k :: events[j].ts < cutoff)
            && (r != [] ==> r[0].ts >= cutoff)
  {
    if events != [] && events[0].ts < cutoff {
      var tail, r := events[1..], Pruned(events, cutoff);
      PrunedMeaning(tail, cutoff);
      forall j | 0 <= j < |events| - |r| ensures events[j].ts < cutoff {
        if j > 0 { assert events[j] == tail[j - 1]; }
      }
    }
  }

  /** The flow events one more quote appends; the first quote appends none. */
  function NewFlows(last: Option<Quote>, ts: int, q: Quote): seq<Event> {
    if last.None? then [] else [Event(ts, Flow(last.value, q))]
  }

  function Observe(o: Oracle, t: Tick): Oracle {
    if !Usable(t) then o else
      var q := QuoteOf(t);
      Oracle(o.volWindowNs, Some(q),
             Pruned(o.mids + [Event(t.ts, Mid(q))], t.ts - MidWindow(o.volWindowNs)),
             Pruned(o.flows + NewFlows(o.last, t.ts, q), t.ts - FLOW_WINDOW_NS),
             o.ticks + 1)
  }

  /** What is kept is the end of the list from its first event at or after the cutoff. */
  ghost predicate IsTrimmed(all: seq<Event>, kept: seq<Event>, cutoff: int) {
    && |kept| <= |all| && kept == all[|all| - |kept|..]
    && (forall j | 0 <= j < |all| - |kept| :: all[j].ts < cutoff)
    && (kept != [] ==> kept[0].ts >= cutoff)
  }

  /**
   A message with a number that is missing or not positive changes nothing.  Any other is counted, its quote is
   remembered, its mid price joins the list kept for the volatility window, ten seconds at least, and its flow
   against the quote before joins the list kept for ten seconds.
   */
  ghost predicate Observed(o: Oracle, t: Tick, r: Oracle) {
    if t.bid.Some? && t.ask.Some? && t.bidQty.Some? && t.askQty.Some?
       && t.bid.value > 0.0 && t.ask.value > 0.0 && t.bidQty.value > 0.0 && t.askQty.value > 0.0 then
      var q := Quote(t.bid.value, t.ask.value, t.bidQty.value, t.askQty.value);
      var window := if o.volWindowNs > 10_000_000_000 then o.volWindowNs else 10_000_000_000;
      && r.volWindowNs == o.volWindowNs && r.ticks == o.ticks + 1 && r.last == Some(q)
      && IsTrimmed(o.mids + [Event(t.ts, Mid(q))], r.mids, t.ts - window)
      && (o.last.None? ==> IsTrimmed(o.flows, r.flows, t.ts - 10_000_000_000))
      && (o.last.Some? ==> IsTrimmed(o.flows + [Event(t.ts, Flow(o.last.value, q))], r.flows, t.ts - 10_000_000_000))
    else r == o
  }

  lemma ObserveMeaning(o: Oracle, t: Tick)
    ensures Observed(o, t, Observe(o, t))
  {
    hide Mid, Flow, Pruned;
    if Usable(t) {
      var q := QuoteOf(t);
      PrunedMeaning(o.mids + [Event(t.ts, Mid(q))], t.ts - MidWindow(o.volWindowNs));
      PrunedMeaning(o.flows + NewFlows(o.last, t.ts, q), t.ts - FLOW_WINDOW_NS);
      if o.last.None? { assert o.flows + [] == o.flows; }
    }
  }

  /** The events no earlier than `from`, summed; `n` of them are looked at. */
  function WindowSum(events: seq<Event>, n: nat, from: int): real
    requires n <= |events|
  {
    if n == 0 then 0.0
    else WindowSum(events, n - 1, from) + if events[n - 1].ts >= from then events[n - 1].value else 0.0
  }

  function SumSince(events: seq<Event>, from: int): real { WindowSum(events, |events|, from) }

  class OracleState {
    const volWindowNs: int
    var lastBbo: Option<Quote>
    var midEvents: seq<Event>
    var ofiEvents: seq<Event>
    var bookTickerEvents: nat

    ghost function View(): Oracle
      reads this
    {
      Oracle(volWindowNs, lastBbo, midEvents, ofiEvents, bookTickerEvents)
    }

    constructor (volWindowNs: int)
      ensures View() == Start(volWindowNs) == Oracle(volWindowNs, None, [], [], 0)
    {
      this.volWindowNs := volWindowNs;
      lastBbo := None;
      midEvents, ofiEvents, bookTickerEvents := [], [], 0;
    }

    method ObserveBookTicker(t: Tick)
      modifies this
      ensures View() == Observe(old(View()), t)
      ensures Observed(old(View()), t, View())
    {
      hide Observed, Flow, Pruned;
      ObserveMeaning(View(), t);
      if !Usable(t) { return; }
      var q := QuoteOf(t);
      ghost var grown := ofiEvents + NewFlows(lastBbo, t.ts, q);
      if lastBbo.Some? {
        var ofi := Imbalance(lastBbo.value, q);
        ofiEvents := ofiEvents + [Event(t.ts, ofi)];
      }
      assert ofiEvents == grown;
      lastBbo := Some(q);
      midEvents := midEvents + [Event(t.ts, (q.bid + q.ask) / 2.0)];
      var window := if volWindowNs >= FLOW_WINDOW_NS then volWindowNs else FLOW_WINDOW_NS;
      midEvents := DropOld(midEvents, t.ts - window);
      ofiEvents := DropOld(ofiEvents, t.ts - FLOW_WINDOW_NS);
      bookTickerEvents := bookTickerEvents + 1;
    }

    method Snapshot(ts: int) returns (ofi100: real, ofi500: real)
      ensures ofi100 == SumSince(ofiEvents, ts - 100_000_000)
      ensures ofi500 == SumSince(ofiEvents, ts - 500_000_000)
    {
      ofi100 := AddUp(ofiEvents, ts - SHORT_NS);
      ofi500 := AddUp(ofiEvents, ts - LONG_NS);
    }
  }

  method Imbalance(p: Quote, q: Quote) returns (ofi: real)
    ensures ofi == Flow(p, q)
  {
    ofi := 0.0;
    if q.bid >= p.bid { ofi := ofi + q.bidQty; }
    if q.bid <= p.bid { ofi := ofi - p.bidQty; }
    if q.ask <= p.ask { ofi := ofi - q.askQty; }
    if q.ask >= p.ask { ofi := ofi + p.askQty; }
  }

  /** Pops from the front while the front is before the cutoff. */
  method DropOld(events: seq<Event>, cutoff: int) returns (r: seq<Event>)
    ensures r == Pruned(events, cutoff)
  {
    r := events;
    while r != [] && r[0].ts < cutoff
      invariant Pruned(r, cutoff) == Pruned(events, cutoff)
      decreases |r|
    {
      r := r[1..];
    }
  }

  method AddUp(events: seq<Event>, from: int) returns (sum: real)
    ensures sum == SumSince(events, from)
  {
    sum := 0.0;
    for i := 0 to |events|
      invariant sum == WindowSum(events, i, from)
    {
      if events[i].ts >= from { sum := sum + events[i].value; }
    }
  }

  // Whole streams, with pruning and without.

  function Run(volWindowNs: int, ticks: seq<Tick>, n: nat): Oracle
    requires n <= |ticks|
  {
    if n == 0 then Start(volWindowNs) else Observe(Run(volWindowNs, ticks, n - 1), ticks[n - 1])
  }

  /** The last usable quote among the first `n` messages. */
  function LastQuote(ticks: seq<Tick>, n: nat): Option<Quote>
    requires n <= |ticks|
  {
    if n == 0 then None
    else if Usable(ticks[n - 1]) then Some(QuoteOf(ticks[n - 1])) else LastQuote(ticks, n - 1)
  }

  /** Every flow of the stream, each against the usable quote before it. */
  function AllFlows(ticks: seq<Tick>, n: nat): seq<Event>
    requires n <= |ticks|
  {
    if n == 0 then []
    else if !Usable(ticks[n - 1]) then AllFlows(ticks, n - 1)
    else AllFlows(ticks, n - 1) + NewFlows(LastQuote(ticks, n - 1), ticks[n - 1].ts, QuoteOf(ticks[n - 1]))
  }

  function AllMids(ticks: seq<Tick>, n: nat): seq<Event>
    requires n <= |ticks|
  {
    if n == 0 then []
    else if !Usable(ticks[n - 1]) then AllMids(ticks, n - 1)
    else AllMids(ticks, n - 1) + [Event(ticks[n - 1].ts, Mid(QuoteOf(ticks[n - 1])))]
  }

  /** `newest` is at or after every usable message. */
  ghost predicate NoneAfter(ticks: seq<Tick>, n: nat, newest: int) {
    forall i | 0 <= i < n <= |ticks| :: Usable(ticks[i]) ==> ticks[i].ts <= newest
  }

  /** `kept` is `all` without a front part whose events are all before `limit`. */
  ghost predicate LacksOnlyOld(all: seq<Event>, kept: seq<Event>, limit: int) {
    && |kept| <= |all|
    && kept == all[|all| - |kept|..]
    && forall i | 0 <= i < |all| - |kept| :: all[i].ts < limit
  }

  lemma PruningLacksOnlyOld(all: seq<Event>, kept: seq<Event>, limit: int, added: seq<Event>, cutoff: int)
    requires LacksOnlyOld(all, kept, limit) && cutoff <= limit
    ensures LacksOnlyOld(all + added, Pruned(kept + added, cutoff), limit)
  {
    var d := |all| - |kept|;
    var whole, rest := all + added, kept + added;
    assert rest == whole[d..];
    PrunedMeaning(rest, cutoff);
    var k := |rest| - |Pruned(rest, cutoff)|;
    forall i | 0 <= i < d + k ensures whole[i].ts < limit {
      if i >= d { assert whole[i] == rest[i - d]; }
    }
  }

  lemma {:induction false} FlowsLackOnlyOld(volWindowNs: int, ticks: seq<Tick>, n: nat, newest: int)
    requires n <= |ticks| && NoneAfter(ticks, n, newest)
    ensures var o := Run(volWindowNs, ticks, n);
            && o.last == LastQuote(ticks, n)
            && LacksOnlyOld(AllFlows(ticks, n), o.flows, newest - FLOW_WINDOW_NS)
  {
    if n > 0 {
      FlowsLackOnlyOld(volWindowNs, ticks, n - 1, newest);
      var o, t := Run(volWindowNs, ticks, n - 1), ticks[n - 1];
      if Usable(t) {
        StepFlows(volWindowNs, ticks, n - 1);
        PruningLacksOnlyOld(AllFlows(ticks, n - 1), o.flows, newest - FLOW_WINDOW_NS,
                            NewFlows(o.last, t.ts, QuoteOf(t)), t.ts - FLOW_WINDOW_NS);
      }
    }
  }

  /** The mid prices kept for the volatility lack only those before the volatility window. */
  lemma {:induction false} MidsLackOnlyOld(volWindowNs: int, ticks: seq<Tick>, n: nat, newest: int)
    requires n <= |ticks| && NoneAfter(ticks, n, newest)
    ensures var o := Run(volWindowNs, ticks, n);
            && o.volWindowNs == volWindowNs
            && LacksOnlyOld(AllMids(ticks, n), o.mids, newest - MidWindow(volWindowNs))
  {
    hide LacksOnlyOld, Pruned, Mid, MidWindow;
    if n == 0 {
      NothingLacks(newest - MidWindow(volWindowNs));
    } else {
      MidsLackOnlyOld(volWindowNs, ticks, n - 1, newest);
      var o, t := Run(volWindowNs, ticks, n - 1), ticks[n - 1];
      if Usable(t) {
        WindowsShift(volWindowNs, t.ts, newest);
        PruningLacksOnlyOld(AllMids(ticks, n - 1), o.mids, newest - MidWindow(volWindowNs),
                            [Event(t.ts, Mid(QuoteOf(t)))], t.ts - MidWindow(volWindowNs));
      }
    }
  }

  lemma NothingLacks(limit: int)
    ensures LacksOnlyOld([], [], limit)
  {
  }

  lemma WindowsShift(volWindowNs: int, ts: int, newest: int)
    requires ts <= newest
    ensures ts - MidWindow(volWindowNs) <= newest - MidWindow(volWindowNs)
  {
  }

  lemma {:induction false} SumLacksOnlyOld(all: seq<Event>, kept: seq<Event>, limit: int, n: nat, from: int)
    requires LacksOnlyOld(all, kept, limit) && limit <= from && n <= |all|
    ensures var d := |all| - |kept|;
            WindowSum(all, n, from) == if n <= d then 0.0 else WindowSum(kept, n - d, from)
  {
    if n > 0 {
      SumLacksOnlyOld(all, kept, limit, n - 1, from);
      var d := |all| - |kept|;
      if n > d { assert all[n - 1] == kept[n - 1 - d]; }
    }
  }

  /** A window that starts at most ten seconds before the newest message sums what never pruning would sum. */
  lemma WindowIsExact(volWindowNs: int, ticks: seq<Tick>, newest: int, from: int)
    requires NoneAfter(ticks, |ticks|, newest) && from >= newest - FLOW_WINDOW_NS
    ensures SumSince(Run(volWindowNs, ticks, |ticks|).flows, from) == SumSince(AllFlows(ticks, |ticks|), from)
  {
    FlowsLackOnlyOld(volWindowNs, ticks, |ticks|, newest);
    var kept, all := Run(volWindowNs, ticks, |ticks|).flows, AllFlows(ticks, |ticks|);
    SumLacksOnlyOld(all, kept, newest - FLOW_WINDOW_NS, |all|, from);
  }

  /** A snapshot at most 9.5 s before the newest message sums exactly what never pruning would sum. */
  lemma PrunedSumsAreExact(volWindowNs: int, ticks: seq<Tick>, newest: int, query: int)
    requires NoneAfter(ticks, |ticks|, newest)
    requires query >= newest - 9_500_000_000
    ensures var kept, all := Run(volWindowNs, ticks, |ticks|).flows, AllFlows(ticks, |ticks|);
            && SumSince(kept, query - SHORT_NS) == SumSince(all, query - SHORT_NS)
            && SumSince(kept, query - LONG_NS) == SumSince(all, query - LONG_NS)
  {
    WindowIsExact(volWindowNs, ticks, newest, query - SHORT_NS);
    WindowIsExact(volWindowNs, ticks, newest, query - LONG_NS);
  }

  function Shown(ts: int, bidQty: real): Tick { Tick(ts, Some(1.0), Some(2.0), Some(bidQty), Some(1.0)) }

  /** Two quotes just outside the ten seconds before `newest`, the second with one more bid, and one at `newest`. */
  function LosingStream(newest: int): seq<Tick> {
    var lost := newest - FLOW_WINDOW_NS - 1;
    [Shown(lost, 1.0), Shown(lost, 2.0), Shown(newest, 2.0)]
  }

  /** No message is after `newest`, yet the sum since `from` differs from the unpruned one. */
  ghost predicate Misreports(volWindowNs: int, ticks: seq<Tick>, newest: int, from: int) {
    && NoneAfter(ticks, |ticks|, newest)
    && SumSince(Run(volWindowNs, ticks, |ticks|).flows, from) != SumSince(AllFlows(ticks, |ticks|), from)
  }

  ghost predicate CanMisreport(volWindowNs: int, newest: int, from: int) {
    exists ticks :: Misreports(volWindowNs, ticks, newest, from)
  }

  /** A flow inside the window, yet more than ten seconds before the last of three messages. */
  predicate OutOfReach(ticks: seq<Tick>, newest: int, from: int) {
    && |ticks| == 3 && Usable(ticks[0]) && Usable(ticks[1]) && Usable(ticks[2])
    && ticks[0].ts <= ticks[1].ts < newest - FLOW_WINDOW_NS && ticks[2].ts == newest
    && ticks[1].ts >= from && Flow(QuoteOf(ticks[0]), QuoteOf(ticks[1])) != 0.0
  }

  /** Every such stream makes the sum wrong. */
  lemma EarlierQueriesCanBeWrong(volWindowNs: int, ticks: seq<Tick>, newest: int, from: int)
    requires OutOfReach(ticks, newest, from)
    ensures Misreports(volWindowNs, ticks, newest, from)
  {
    LostFlow(volWindowNs, ticks, newest);
    SumOfTwo(FlowAt(ticks, 0), FlowAt(ticks, 1), from);
  }

  lemma LosingStreamIsOutOfReach(newest: int, from: int)
    requires from < newest - FLOW_WINDOW_NS
    ensures OutOfReach(LosingStream(newest), newest, from)
  {
  }

  /** A sum can be wrong exactly when its window starts more than ten seconds before the newest message. */
  lemma WindowMisreportsExactly(volWindowNs: int, newest: int, from: int)
    ensures CanMisreport(volWindowNs, newest, from) <==> from < newest - FLOW_WINDOW_NS
  {
    if from < newest - FLOW_WINDOW_NS {
      SomeStreamMisreports(volWindowNs, LosingStream(newest), newest, from);
    } else {
      forall ticks ensures !Misreports(volWindowNs, ticks, newest, from) {
        if NoneAfter(ticks, |ticks|, newest) { WindowIsExact(volWindowNs, ticks, newest, from); }
      }
    }
  }

  /** The 500 ms sum can be wrong exactly for queries more than 9.5 s before the newest message, the 100 ms sum 9.9 s. */
  lemma MisreportsExactlyWhenEarlier(volWindowNs: int, newest: int, query: int)
    ensures CanMisreport(volWindowNs, newest, query - LONG_NS) <==> query < newest - 9_500_000_000
    ensures CanMisreport(volWindowNs, newest, query - SHORT_NS) <==> query < newest - 9_900_000_000
  {
    hide CanMisreport;
    WindowMisreportsExactly(volWindowNs, newest, query - LONG_NS);
    WindowMisreportsExactly(volWindowNs, newest, query - SHORT_NS);
  }

  lemma SomeStreamMisreports(volWindowNs: int, ticks: seq<Tick>, newest: int, from: int)
    requires from < newest - FLOW_WINDOW_NS && ticks == LosingStream(newest)
    ensures exists ticks :: Misreports(volWindowNs, ticks, newest, from)
  {
    hide Misreports, LosingStream, OutOfReach;
    LosingStreamIsOutOfReach(newest, from);
    EarlierQueriesCanBeWrong(volWindowNs, ticks, newest, from);
  }

  function FlowAt(ticks: seq<Tick>, n: nat): Event
    requires n + 1 < |ticks| && Usable(ticks[n]) && Usable(ticks[n + 1])
  {
    Event(ticks[n + 1].ts, Flow(QuoteOf(ticks[n]), QuoteOf(ticks[n + 1])))
  }

  lemma SumOfTwo(a: Event, b: Event, from: int)
    requires a.ts >= from && a.value != 0.0
    ensures SumSince([a, b], from) != SumSince([b], from)
  {
    assert WindowSum([a, b], 0, from) == WindowSum([b], 0, from) == 0.0;
    assert WindowSum([a, b], 1, from) == a.value;
  }

  lemma LostFlow(volWindowNs: int, ticks: seq<Tick>, newest: int)
    requires |ticks| == 3 && Usable(ticks[0]) && Usable(ticks[1]) && Usable(ticks[2])
    requires ticks[0].ts <= ticks[1].ts < newest - FLOW_WINDOW_NS && ticks[2].ts == newest
    ensures AllFlows(ticks, 3) == [FlowAt(ticks, 0), FlowAt(ticks, 1)]
    ensures Run(volWindowNs, ticks, 3).flows == [FlowAt(ticks, 1)]
  {
    var early, late := FlowAt(ticks, 0), FlowAt(ticks, 1);
    StepFlows(volWindowNs, ticks, 0);
    PrunedPair([], [], ticks[0].ts - FLOW_WINDOW_NS);
    StepFlows(volWindowNs, ticks, 1);
    PrunedPair([], [early], ticks[1].ts - FLOW_WINDOW_NS);
    StepFlows(volWindowNs, ticks, 2);
    PrunedPair([early], [late], newest - FLOW_WINDOW_NS);
  }

  lemma PrunedPair(front: seq<Event>, back: seq<Event>, cutoff: int)
    requires |front| <= 1 && |back| <= 1
    requires front != [] ==> front[0].ts < cutoff
    requires back != [] ==> back[0].ts >= cutoff
    ensures Pruned(front + back, cutoff) == back
  {
    if front == [] { assert front + back == back; } else { assert (front + back)[1..] == back; }
  }

  /** What one usable message does to the two lists of flows. */
  lemma StepFlows(volWindowNs: int, ticks: seq<Tick>, n: nat)
    requires n < |ticks| && Usable(ticks[n])
    requires Run(volWindowNs, ticks, n).last == LastQuote(ticks, n)
    ensures var t := ticks[n]; var added := NewFlows(LastQuote(ticks, n), t.ts, QuoteOf(t));
            && AllFlows(ticks, n + 1) == AllFlows(ticks, n) + added
            && var o := Run(volWindowNs, ticks, n + 1);
            && o.flows == Pruned(Run(volWindowNs, ticks, n).flows + added, t.ts - FLOW_WINDOW_NS)
            && o.last == LastQuote(ticks, n + 1)
  {
  }

  // Clocks that never go back: the list is exactly the window.

  ghost predicate NeverBack(ticks: seq<Tick>, n: nat) {
    forall i, j | 0 <= i < j < n <= |ticks| :: Usable(ticks[i]) && Usable(ticks[j]) ==> ticks[i].ts <= ticks[j].ts
  }

  ghost predicate Within(events: seq<Event>, lo: int, hi: int) {
    forall i | 0 <= i < |events| :: lo <= events[i].ts <= hi
  }

  ghost predicate NoneLater(events: seq<Event>, hi: int) {
    forall i | 0 <= i < |events| :: events[i].ts <= hi
  }

  ghost predicate InOrder(events: seq<Event>) {
    forall i, j | 0 <= i < j < |events| :: events[i].ts <= events[j].ts
  }

  lemma OrderIsKept(events: seq<Event>, cutoff: int, newest: int)
    requires InOrder(events) && NoneLater(events, newest)
    ensures var r := Pruned(events, cutoff);
            InOrder(r) && Within(r, cutoff, newest)
  {
    var r := Pruned(events, cutoff);
    PrunedMeaning(events, cutoff);
    var k := |events| - |r|;
    forall i, j | 0 <= i < j < |r| ensures r[i].ts <= r[j].ts {
      assert events[k + i].ts <= events[k + j].ts;
    }
    forall i | 0 <= i < |r| ensures cutoff <= r[i].ts <= newest {
      if i > 0 { assert events[k].ts <= events[k + i].ts; }
    }
  }

  lemma AppendKeepsOrder(events: seq<Event>, last: Option<Quote>, ts: int, q: Quote)
    requires InOrder(events) && NoneLater(events, ts)
    ensures var grown := events + NewFlows(last, ts, q);
            InOrder(grown) && NoneLater(grown, ts)
  {
  }

  lemma {:induction false} OrderedClocksKeepOrder(volWindowNs: int, ticks: seq<Tick>, n: nat, newest: int)
    requires n <= |ticks| && NeverBack(ticks, n) && NoneAfter(ticks, n, newest)
    ensures var flows := Run(volWindowNs, ticks, n).flows;
            InOrder(flows) && NoneLater(flows, newest)
  {
    if n > 0 {
      var o, t := Run(volWindowNs, ticks, n - 1), ticks[n - 1];
      if Usable(t) {
        OrderedClocksKeepOrder(volWindowNs, ticks, n - 1, t.ts);
        AppendKeepsOrder(o.flows, o.last, t.ts, QuoteOf(t));
        OrderIsKept(o.flows + NewFlows(o.last, t.ts, QuoteOf(t)), t.ts - FLOW_WINDOW_NS, t.ts);
      } else {
        OrderedClocksKeepOrder(volWindowNs, ticks, n - 1, newest);
      }
    }
  }

  /** With clocks that never go back nothing older than ten seconds is kept either. */
  lemma OrderedClocksKeepOnlyTheWindow(volWindowNs: int, ticks: seq<Tick>, n: nat, ts: int)
    requires n <= |ticks| && NeverBack(ticks, n)
    requires n > 0 && Usable(ticks[n - 1]) && ticks[n - 1].ts == ts
    ensures Within(Run(volWindowNs, ticks, n).flows, ts - FLOW_WINDOW_NS, ts)
  {
    var o, q := Run(volWindowNs, ticks, n - 1), QuoteOf(ticks[n - 1]);
    OrderedClocksKeepOrder(volWindowNs, ticks, n - 1, ts);
    AppendKeepsOrder(o.flows, o.last, ts, q);
    OrderIsKept(o.flows + NewFlows(o.last, ts, q), ts - FLOW_WINDOW_NS, ts);
  }

  // Flow along paths of quotes.

  lemma FlowIsAntisymmetric(p: Quote, q: Quote)
    ensures Flow(p, q) == -Flow(q, p)
  {
  }

  /** The flow of going through `path` up to position `n`. */
  function PathFlow(path: seq<Quote>, n: nat): real
    requires n < |path|
  {
    if n == 0 then 0.0 else PathFlow(path, n - 1) + Flow(path[n - 1], path[n])
  }

  /** `path` followed by itself backwards. */
  function ThereAndBack(path: seq<Quote>): seq<Quote> {
    seq(2 * |path|, i requires 0 <= i < 2 * |path| => if i < |path| then path[i] else path[2 * |path| - 1 - i])
  }

  lemma {:induction false} BackUndoes(path: seq<Quote>, k: nat)
    requires k < |path|
    ensures var there := ThereAndBack(path);
            PathFlow(there, |path| + k) == PathFlow(there, |path| - 1 - k)
  {
    var there, m := ThereAndBack(path), |path|;
    if k == 0 {
      assert there[m] == there[m - 1];
    } else {
      BackUndoes(path, k - 1);
      assert there[m + k] == there[m - 1 - k] && there[m + k - 1] == there[m - k];
      FlowIsAntisymmetric(there[m - 1 - k], there[m - k]);
    }
  }

  /** A quote path followed by its reverse carries no flow. */
  lemma ThereAndBackIsZero(path: seq<Quote>)
    requires path != []
    ensures var there := ThereAndBack(path);
            PathFlow(there, |there| - 1) == 0.0
  {
    BackUndoes(path, |path| - 1);
  }

  /** The stream that shows `path` at the given times. */
  ghost predicate Shows(ticks: seq<Tick>, path: seq<Quote>) {
    |ticks| == |path| && forall i | 0 <= i < |path| :: Usable(ticks[i]) && QuoteOf(ticks[i]) == path[i]
  }

  ghost predicate NoneBefore(ticks: seq<Tick>, oldest: int) {
    forall i | 0 <= i < |ticks| :: ticks[i].ts >= oldest
  }

  lemma {:induction false} StreamFlowIsPathFlow(ticks: seq<Tick>, path: seq<Quote>, n: nat, from: int)
    requires Shows(ticks, path) && NoneBefore(ticks, from) && n < |path|
    ensures LastQuote(ticks, n + 1) == Some(path[n])
    ensures SumSince(AllFlows(ticks, n + 1), from) == PathFlow(path, n)
  {
    if n == 0 {
      assert AllFlows(ticks, 1) == AllFlows(ticks, 0) + NewFlows(None, ticks[0].ts, path[0]);
    } else {
      StreamFlowIsPathFlow(ticks, path, n - 1, from);
      var before := AllFlows(ticks, n);
      var e := Event(ticks[n].ts, Flow(path[n - 1], path[n]));
      assert AllFlows(ticks, n + 1) == before + [e];
      SumAppend(before, e, from, |before|);
    }
  }

  lemma {:induction false} SumAppend(events: seq<Event>, e: Event, from: int, n: nat)
    requires n <= |events|
    ensures SumSince([], from) == 0.0
    ensures WindowSum(events + [e], n, from) == WindowSum(events, n, from)
    ensures n == |events| ==> SumSince(events + [e], from)
                              == SumSince(events, from) + if e.ts >= from then e.value else 0.0
  {
    if n > 0 { SumAppend(events, e, from, n - 1); }
  }

  /** A path and its reverse, all seen in the last 500 ms, leave the 500 ms flow at zero. */
  lemma ThereAndBackSnapshotIsZero(volWindowNs: int, ticks: seq<Tick>, path: seq<Quote>, query: int)
    requires path != [] && Shows(ticks, ThereAndBack(path))
    requires NoneBefore(ticks, query - LONG_NS) && NoneAfter(ticks, |ticks|, query)
    ensures SumSince(Run(volWindowNs, ticks, |ticks|).flows, query - LONG_NS) == 0.0
  {
    PrunedSumsAreExact(volWindowNs, ticks, query, query);
    StreamFlowIsPathFlow(ticks, ThereAndBack(path), |ticks| - 1, query - LONG_NS);
    ThereAndBackIsZero(path);
  }
}
