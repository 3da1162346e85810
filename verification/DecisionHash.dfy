/**
 The hash chains over opportunity intents and order plans in
 `tools/verify_canonical_decision_workflow.cpp`.  A chain is a list of parts, each a 64-bit
 word or a string, mixed one after the other; signed values are given by their 64 bits.
 */
module DecisionHash {
  import opened Words
  import opened Fnv

  datatype Part = Word(v: Uint64) | Text(bytes: seq<Byte>)

  datatype Leg = Leg(
    marketId: seq<Byte>, assetId: seq<Byte>, side: Uint64, quantityLots: Uint64, estimatedVwapTick: Uint64,
    worstPriceTick: Uint64, estimatedCostTick: Uint64, requestedQtyLots: Uint64, executableQtyLots: Uint64,
    depthMarginBps: Uint64, enoughDepth: bool)

  /** `legs` are the first `legCount` legs of the source's fixed array. */
  datatype Intent = Intent(
    intentId: Uint64, bundleId: Uint64, status: Uint64, oracleArtifactHash: Uint64, constraintHash: Uint64,
    bundleHash: Uint64, snapshotVersion: Uint64, snapshotVersionHash: Uint64, bundleQty: Uint64, unitEdgeTick: Uint64,
    totalEdgeTick: Uint64, edgeBps: Uint64, idempotencyHash: Uint64, proofHash: Uint64, legCount: Uint64,
    legs: seq<Leg>)

  datatype Order = Order(
    orderId: Uint64, planId: Uint64, clientOrderId: seq<Byte>, marketId: seq<Byte>, assetId: seq<Byte>, side: Uint64,
    quantityLots: Uint64, limitPriceTick: Uint64, estimatedVwapTick: Uint64, worstAllowedPriceTick: Uint64,
    status: Uint64)

  datatype Plan = Plan(
    planId: Uint64, sourceIntentId: Uint64, approvedIntentId: Uint64, reservationId: Uint64, bundleId: Uint64,
    status: Uint64, orderCount: Uint64, maxTotalCostTick: Uint64, minExpectedEdgeTick: Uint64, maxSlippageTick: Uint64,
    idempotencyKey: seq<Byte>, orders: seq<Order>)

  function IntentParts(i: Intent): seq<Part> {
    [Word(i.intentId), Word(i.bundleId), Word(i.status), Word(i.oracleArtifactHash), Word(i.constraintHash),
     Word(i.bundleHash), Word(i.snapshotVersion), Word(i.snapshotVersionHash), Word(i.bundleQty), Word(i.unitEdgeTick),
     Word(i.totalEdgeTick), Word(i.edgeBps), Word(i.idempotencyHash), Word(i.proofHash), Word(i.legCount)]
  }

  function LegParts(l: Leg): seq<Part> {
    [Text(l.marketId), Text(l.assetId), Word(l.side), Word(l.quantityLots), Word(l.estimatedVwapTick),
     Word(l.worstPriceTick), Word(l.estimatedCostTick), Word(l.requestedQtyLots), Word(l.executableQtyLots),
     Word(l.depthMarginBps), Word(if l.enoughDepth then 1 else 0)]
  }

  function PlanParts(p: Plan): seq<Part> {
    [Word(p.planId), Word(p.sourceIntentId), Word(p.approvedIntentId), Word(p.reservationId), Word(p.bundleId),
     Word(p.status), Word(p.orderCount), Word(p.maxTotalCostTick), Word(p.minExpectedEdgeTick),
     Word(p.maxSlippageTick), Text(p.idempotencyKey)]
  }

  function OrderParts(o: Order): seq<Part> {
    [Word(o.orderId), Word(o.planId), Text(o.clientOrderId), Text(o.marketId), Text(o.assetId), Word(o.side),
     Word(o.quantityLots), Word(o.limitPriceTick), Word(o.estimatedVwapTick), Word(o.worstAllowedPriceTick),
     Word(o.status)]
  }

  // ---- The bytes a chain mixes ----

  function PartBytes(p: Part): seq<Byte> {
    match p
    case Word(v) => WordBytes(v)
    case Text(bytes) => bytes
  }

  function PartsBytes(ps: seq<Part>): seq<Byte> {
    if ps == [] then [] else PartsBytes(ps[..|ps| - 1]) + PartBytes(ps[|ps| - 1])
  }

  function LegsBytes(ls: seq<Leg>): seq<Byte> {
    if ls == [] then [] else LegsBytes(ls[..|ls| - 1]) + PartsBytes(LegParts(ls[|ls| - 1]))
  }

  function OrdersBytes(os: seq<Order>): seq<Byte> {
    if os == [] then [] else OrdersBytes(os[..|os| - 1]) + PartsBytes(OrderParts(os[|os| - 1]))
  }

  function IntentBytes(i: Intent): seq<Byte> { PartsBytes(IntentParts(i)) + LegsBytes(i.legs) }

  function PlanBytes(p: Plan): seq<Byte> { PartsBytes(PlanParts(p)) + OrdersBytes(p.orders) }

  // ---- The chains ----

  method MixParts(hash: Uint64, parts: seq<Part>) returns (h: Uint64)
    ensures h == Mix(hash, PartsBytes(parts))
  {
    hide WordBytes;
    h := hash;
    for i := 0 to |parts|
      invariant h == Mix(hash, PartsBytes(parts[..i]))
    {
      assert parts[..i + 1][..i] == parts[..i];
      MixConcat(hash, PartsBytes(parts[..i]), PartBytes(parts[i]));
      match parts[i]
      case Word(v) => h := MixU64(h, v);
      case Text(bytes) => h := MixString(h, bytes);
    }
    assert parts[..|parts|] == parts;
  }

  method MixIntent(hash: Uint64, intent: Intent) returns (h: Uint64)
    ensures h == Mix(hash, IntentBytes(intent))
  {
    hide IntentParts, LegParts;
    h := MixParts(hash, IntentParts(intent));
    ghost var start, legs := h, intent.legs;
    for i := 0 to |intent.legs|
      invariant h == Mix(start, LegsBytes(legs[..i]))
    {
      assert legs[..i + 1][..i] == legs[..i];
      MixConcat(start, LegsBytes(legs[..i]), PartsBytes(LegParts(legs[i])));
      h := MixParts(h, LegParts(intent.legs[i]));
    }
    assert legs[..|legs|] == legs;
    MixConcat(hash, PartsBytes(IntentParts(intent)), LegsBytes(legs));
  }

  method MixPlan(hash: Uint64, plan: Plan) returns (h: Uint64)
    ensures h == Mix(hash, PlanBytes(plan))
  {
    hide PlanParts, OrderParts;
    h := MixParts(hash, PlanParts(plan));
    ghost var start, orders := h, plan.orders;
    for i := 0 to |plan.orders|
      invariant h == Mix(start, OrdersBytes(orders[..i]))
    {
      assert orders[..i + 1][..i] == orders[..i];
      MixConcat(start, OrdersBytes(orders[..i]), PartsBytes(OrderParts(orders[i])));
      h := MixParts(h, OrderParts(plan.orders[i]));
    }
    assert orders[..|orders|] == orders;
    MixConcat(hash, PartsBytes(PlanParts(plan)), OrdersBytes(orders));
  }

  // ---- What the chains can and cannot tell apart ----

  /** Two runs whose hashes differ before an intent and a plan still differ after mixing the same ones. */
  lemma ChainKeepsStatesApart(g: Uint64, h: Uint64, i: Intent, p: Plan)
    ensures Mix(Mix(g, IntentBytes(i)), PlanBytes(p)) == Mix(Mix(h, IntentBytes(i)), PlanBytes(p)) <==> g == h
  {
    DifferentStatesStayDifferent(g, h, IntentBytes(i));
    DifferentStatesStayDifferent(Mix(g, IntentBytes(i)), Mix(h, IntentBytes(i)), PlanBytes(p));
  }
}
