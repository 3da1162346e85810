/**
 Where each member lies in the bytes that the hash chains of
 `tools/verify_canonical_decision_workflow.cpp` mix.
 */
module HashLayout {
  import opened Words
  import opened Fnv
  import opened DecisionHash
  import opened HashCollisions

  /** Eight bytes at the position are those of the word, least significant first. */
  predicate WordAt(b: seq<Byte>, at: nat, v: Uint64) { at + 8 <= |b| && b[at..at + 8] == WordBytes(v) }

  lemma WordAfter(front: seq<Byte>, v: Uint64, back: seq<Byte>)
    ensures WordAt(front + WordBytes(v) + back, |front|, v)
  {
    var b := front + WordBytes(v) + back;
    assert b[|front|..|front| + 8] == WordBytes(v);
  }

  lemma WordBefore(b: seq<Byte>, at: nat, v: Uint64, back: seq<Byte>)
    requires WordAt(b, at, v)
    ensures WordAt(b + back, at, v)
  {
    assert (b + back)[at..at + 8] == b[at..at + 8];
  }

  /** Words at the end of a list of parts lie eight bytes apart. */
  lemma {:induction false} WordsLieAt(ps: seq<Part>, vs: seq<Uint64>, k: nat)
    requires k < |vs|
    ensures WordAt(PartsBytes(ps + WordParts(vs)), |PartsBytes(ps)| + 8 * k, vs[k])
    decreases |vs|
  {
    hide PartsBytes, WordBytes, WordAt;
    var n := |vs| - 1;
    var front := PartsBytes(ps + WordParts(vs[..n]));
    LastWord(ps, vs);
    EndLength(ps, vs[..n]);
    if k < n {
      WordsLieAt(ps, vs[..n], k);
      WordBefore(front, |PartsBytes(ps)| + 8 * k, vs[k], WordBytes(vs[n]));
    } else {
      WordAfter(front, vs[n], []);
      assert front + WordBytes(vs[n]) + [] == front + WordBytes(vs[n]);
    }
  }

  /** The words lie eight bytes apart from the position on. */
  predicate WordsFrom(b: seq<Byte>, at: nat, vs: seq<Uint64>) {
    forall k | 0 <= k < |vs| :: WordAt(b, at + 8 * k, vs[k])
  }

  lemma WordsLieFrom(ps: seq<Part>, vs: seq<Uint64>, back: seq<Byte>)
    ensures WordsFrom(PartsBytes(ps + WordParts(vs)) + back, |PartsBytes(ps)|, vs)
  {
    hide PartsBytes, WordParts, WordAt;
    var b, at := PartsBytes(ps + WordParts(vs)), |PartsBytes(ps)|;
    forall k | 0 <= k < |vs| ensures WordAt(b + back, at + 8 * k, vs[k]) {
      WordsLieAt(ps, vs, k);
      WordBefore(b, at + 8 * k, vs[k], back);
    }
  }

  /** The bytes of the parts before the words come first. */
  lemma {:induction false} FrontBytes(ps: seq<Part>, vs: seq<Uint64>)
    ensures PartsBytes(ps) <= PartsBytes(ps + WordParts(vs))
    decreases |vs|
  {
    hide PartsBytes, WordBytes;
    if vs == [] {
      assert ps + WordParts(vs) == ps;
    } else {
      FrontBytes(ps, vs[..|vs| - 1]);
      LastWord(ps, vs);
    }
  }

  lemma TwoWordsInFront(b: seq<Byte>, v: Uint64, w: Uint64, strings: seq<Byte>)
    requires WordBytes(v) + (WordBytes(w) + strings) <= b
    ensures WordsFrom(b, 0, [v, w]) && b[16..16 + |strings|] == strings
  {
    var front := WordBytes(v) + (WordBytes(w) + strings);
    assert b[..|front|] == front;
    assert b[0..8] == front[0..8] == WordBytes(v);
    assert b[8..16] == front[8..16] == WordBytes(w);
    assert b[16..16 + |strings|] == front[16..] == strings;
    assert WordAt(b, 0, v) && WordAt(b, 8, w);
  }

  /** An intent mixes fifteen words in this order, then its legs. */
  lemma IntentLayout(i: Intent)
    ensures var b := IntentBytes(i);
            && WordsFrom(b, 0, [i.intentId, i.bundleId, i.status, i.oracleArtifactHash, i.constraintHash, i.bundleHash,
                                i.snapshotVersion, i.snapshotVersionHash, i.bundleQty, i.unitEdgeTick,
                                i.totalEdgeTick, i.edgeBps, i.idempotencyHash, i.proofHash, i.legCount])
            && |b| >= 120 && b[120..] == LegsBytes(i.legs)
  {
    hide PartsBytes, WordParts, WordsFrom, LegsBytes, IntentParts;
    IntentShape(i);
    NoBytes();
    WordsLieFrom([], IntentWords(i), LegsBytes(i.legs));
  }

  /** A leg mixes its two strings, then nine words in this order. */
  lemma LegLayout(l: Leg)
    ensures var b, n := PartsBytes(LegParts(l)), |l.marketId| + |l.assetId|;
            && WordsFrom(b, n, [l.side, l.quantityLots, l.estimatedVwapTick, l.worstPriceTick, l.estimatedCostTick,
                                l.requestedQtyLots, l.executableQtyLots, l.depthMarginBps,
                                if l.enoughDepth then 1 else 0])
            && |b| == n + 72 && b[..n] == l.marketId + l.assetId
  {
    hide PartsBytes, WordParts, WordsFrom, LegParts;
    var head := [Text(l.marketId), Text(l.assetId)];
    LegShape(l);
    WordsLieFrom(head, LegWords(l), []);
    assert PartsBytes(LegParts(l)) + [] == PartsBytes(LegParts(l));
    LegLength(l);
    FrontBytes(head, LegWords(l));
  }

  /** A plan mixes ten words in this order, then its idempotency key and its orders. */
  lemma PlanLayout(p: Plan)
    ensures var b := PlanBytes(p);
            && WordsFrom(b, 0, [p.planId, p.sourceIntentId, p.approvedIntentId, p.reservationId, p.bundleId, p.status,
                                p.orderCount, p.maxTotalCostTick, p.minExpectedEdgeTick, p.maxSlippageTick])
            && |b| >= 80 && b[80..] == p.idempotencyKey + OrdersBytes(p.orders)
  {
    hide PartsBytes, WordParts, WordsFrom, OrdersBytes, PlanParts;
    PlanShape(p);
    NoBytes();
    var back := p.idempotencyKey + OrdersBytes(p.orders);
    WordsLieFrom([], PlanWords(p), back);
    assert PlanBytes(p) == PartsBytes([] + WordParts(PlanWords(p))) + back;
  }

  /** An order mixes two words, its three strings, then six words in this order. */
  lemma OrderLayout(o: Order)
    ensures var b, n := PartsBytes(OrderParts(o)), 16 + |o.clientOrderId| + |o.marketId| + |o.assetId|;
            && WordsFrom(b, 0, [o.orderId, o.planId])
            && WordsFrom(b, n, [o.side, o.quantityLots, o.limitPriceTick, o.estimatedVwapTick,
                                o.worstAllowedPriceTick, o.status])
            && |b| == n + 48 && b[16..n] == o.clientOrderId + o.marketId + o.assetId
  {
    hide PartsBytes, WordParts, WordsFrom, OrderParts, OrderHead, WordBytes;
    OrderShape(o);
    WordsLieFrom(OrderHead(o), OrderWords(o), []);
    assert PartsBytes(OrderParts(o)) + [] == PartsBytes(OrderParts(o));
    OrderLength(o);
    FrontBytes(OrderHead(o), OrderWords(o));
    TwoWordsInFront(PartsBytes(OrderParts(o)), o.orderId, o.planId, OrderStrings(o));
  }

  /** Legs and orders are mixed one after the other. */
  lemma OneMoreLeg(ls: seq<Leg>, l: Leg, os: seq<Order>, o: Order)
    ensures LegsBytes([]) == [] && LegsBytes(ls + [l]) == LegsBytes(ls) + PartsBytes(LegParts(l))
    ensures OrdersBytes([]) == [] && OrdersBytes(os + [o]) == OrdersBytes(os) + PartsBytes(OrderParts(o))
  {
    hide LegParts, OrderParts, PartsBytes;
    assert (ls + [l])[..|ls|] == ls && (os + [o])[..|os|] == os;
  }
}
