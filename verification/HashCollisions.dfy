/**
 What the hash chains of `tools/verify_canonical_decision_workflow.cpp` can and cannot tell
 apart by the bytes they mix.  Words have a fixed width; adjacent strings are mixed without a
 length or a separator.
 */
module HashCollisions {
  import opened Words
  import opened Fnv
  import opened DecisionHash

  function WordParts(vs: seq<Uint64>): (ps: seq<Part>)
    ensures |ps| == |vs|
  {
    if vs == [] then [] else WordParts(vs[..|vs| - 1]) + [Word(vs[|vs| - 1])]
  }

  lemma EqualTails<T>(a: seq<T>, b: seq<T>, c: seq<T>, d: seq<T>)
    requires |a| == |c| || |b| == |d|
    ensures a + b == c + d <==> a == c && b == d
  {
    if a + b == c + d {
      assert |a| + |b| == |c| + |d|;
      assert a == (a + b)[..|a|] && c == (c + d)[..|c|];
      assert b == (a + b)[|a|..] && d == (c + d)[|c|..];
    }
  }

  /** Lists of parts that end in equally many words mix the same bytes exactly when the words and the rest do. */
  lemma {:induction false} WordsAtTheEnd(ps: seq<Part>, vs: seq<Uint64>, qs: seq<Part>, ws: seq<Uint64>)
    requires |vs| == |ws|
    ensures PartsBytes(ps + WordParts(vs)) == PartsBytes(qs + WordParts(ws)) <==> PartsBytes(ps) == PartsBytes(qs) && vs == ws
    decreases |vs|
  {
    hide PartsBytes, WordBytes;
    if vs == [] {
      assert ps + WordParts(vs) == ps && qs + WordParts(ws) == qs;
    } else {
      var n := |vs| - 1;
      WordsAtTheEnd(ps, vs[..n], qs, ws[..n]);
      LastWord(ps, vs);
      LastWord(qs, ws);
      WordBytesDetermine(vs[n], ws[n]);
      EqualTails(PartsBytes(ps + WordParts(vs[..n])), WordBytes(vs[n]), PartsBytes(qs + WordParts(ws[..n])), WordBytes(ws[n]));
      assert vs == vs[..n] + [vs[n]] && ws == ws[..n] + [ws[n]];
    }
  }

  lemma LastWord(ps: seq<Part>, vs: seq<Uint64>)
    requires vs != []
    ensures PartsBytes(ps + WordParts(vs)) == PartsBytes(ps + WordParts(vs[..|vs| - 1])) + WordBytes(vs[|vs| - 1])
  {
    var all := ps + WordParts(vs);
    assert all[..|all| - 1] == ps + WordParts(vs[..|vs| - 1]);
    assert all[|all| - 1] == Word(vs[|vs| - 1]);
  }

  // Legs and orders: the strings run into one another, everything else is fixed.

  function LegStrings(l: Leg): seq<Byte> { l.marketId + l.assetId }

  function LegWords(l: Leg): (vs: seq<Uint64>)
    ensures |vs| == 9
  {
    [l.side, l.quantityLots, l.estimatedVwapTick, l.worstPriceTick, l.estimatedCostTick, l.requestedQtyLots,
     l.executableQtyLots, l.depthMarginBps, if l.enoughDepth then 1 else 0]
  }

  lemma {:induction false} WordsAt(vs: seq<Uint64>)
    ensures forall i | 0 <= i < |vs| :: WordParts(vs)[i] == Word(vs[i])
    decreases |vs|
  {
    if vs != [] { WordsAt(vs[..|vs| - 1]); }
  }

  lemma LegShape(l: Leg)
    ensures LegParts(l) == [Text(l.marketId), Text(l.assetId)] + WordParts(LegWords(l))
    ensures PartsBytes([Text(l.marketId), Text(l.assetId)]) == LegStrings(l)
  {
    WordsAt(LegWords(l));
    TwoStrings(l.marketId, l.assetId);
  }

  lemma TwoStrings(a: seq<Byte>, b: seq<Byte>)
    ensures PartsBytes([Text(a), Text(b)]) == a + b
  {
    var ps := [Text(a), Text(b)];
    assert ps[..1] == [Text(a)] && ps[..1][..0] == [];
    assert PartsBytes(ps[..1]) == [] + a;
  }

  /** Two legs mix the same bytes exactly when their strings run together to the same text and all else agrees. */
  lemma LegBytesExactly(l: Leg, m: Leg)
    ensures PartsBytes(LegParts(l)) == PartsBytes(LegParts(m)) <==>
            LegStrings(l) == LegStrings(m) && l.(marketId := m.marketId, assetId := m.assetId) == m
  {
    hide LegParts, PartsBytes;
    LegShape(l);
    LegShape(m);
    WordsAtTheEnd([Text(l.marketId), Text(l.assetId)], LegWords(l), [Text(m.marketId), Text(m.assetId)], LegWords(m));
    SameLegWords(l, m);
  }

  lemma SameLegWords(l: Leg, m: Leg)
    ensures LegWords(l) == LegWords(m) <==> l.(marketId := m.marketId, assetId := m.assetId) == m
  {
    var v, w := LegWords(l), LegWords(m);
    if v == w {
      assert v[0] == w[0] && v[1] == w[1] && v[2] == w[2] && v[3] == w[3] && v[4] == w[4] && v[5] == w[5];
      assert v[6] == w[6] && v[7] == w[7] && v[8] == w[8];
    }
  }

  /** Two different legs that mix the same bytes: one character moves from the market id to the asset id. */
  lemma DifferentLegsCollide(l: Leg)
    requires l.marketId == [1, 2] && l.assetId == [3]
    ensures var m := l.(marketId := [1], assetId := [2, 3]);
            l != m && PartsBytes(LegParts(l)) == PartsBytes(LegParts(m))
  {
    var m := l.(marketId := [1], assetId := [2, 3]);
    assert [1, 2] + [3] == [1] + [2, 3];
    LegBytesExactly(l, m);
    assert |l.marketId| != |m.marketId|;
  }

  /** So two different intents hash alike from every state. */
  lemma DifferentIntentsCollide(i: Intent, h: Uint64)
    requires |i.legs| == 1 && i.legs[0].marketId == [1, 2] && i.legs[0].assetId == [3]
    ensures var j := i.(legs := [i.legs[0].(marketId := [1], assetId := [2, 3])]);
            i != j && Mix(h, IntentBytes(i)) == Mix(h, IntentBytes(j))
  {
    hide LegParts, PartsBytes, Mix;
    var l := i.legs[0];
    var m := l.(marketId := [1], assetId := [2, 3]);
    DifferentLegsCollide(l);
    assert i.legs == [l] && [l] != [m];
    assert [l][..0] == [] && [m][..0] == [];
    assert LegsBytes([l]) == LegsBytes([m]);
    assert IntentParts(i) == IntentParts(i.(legs := [m]));
  }

  function OrderStrings(o: Order): seq<Byte> { o.clientOrderId + o.marketId + o.assetId }

  function OrderWords(o: Order): (vs: seq<Uint64>)
    ensures |vs| == 6
  {
    [o.side, o.quantityLots, o.limitPriceTick, o.estimatedVwapTick, o.worstAllowedPriceTick, o.status]
  }

  function OrderHead(o: Order): seq<Part> {
    [Word(o.orderId), Word(o.planId), Text(o.clientOrderId), Text(o.marketId), Text(o.assetId)]
  }

  lemma OrderShape(o: Order)
    ensures OrderParts(o) == OrderHead(o) + WordParts(OrderWords(o))
    ensures PartsBytes(OrderHead(o)) == WordBytes(o.orderId) + (WordBytes(o.planId) + OrderStrings(o))
  {
    WordsAt(OrderWords(o));
    HeadBytes(o.orderId, o.planId, o.clientOrderId, o.marketId, o.assetId);
  }

  lemma HeadBytes(v: Uint64, w: Uint64, a: seq<Byte>, b: seq<Byte>, c: seq<Byte>)
    ensures PartsBytes([Word(v), Word(w), Text(a), Text(b), Text(c)]) == WordBytes(v) + (WordBytes(w) + (a + b + c))
  {
    hide WordBytes;
    var ps := [Word(v), Word(w), Text(a), Text(b), Text(c)];
    Snoc(ps, 4);
    Snoc(ps, 3);
    Snoc(ps, 2);
    Snoc(ps, 1);
    Snoc(ps, 0);
    assert ps[..5] == ps && ps[..0] == [];
    Regroup(WordBytes(v), WordBytes(w), a, b, c);
  }

  lemma Regroup(x: seq<Byte>, y: seq<Byte>, a: seq<Byte>, b: seq<Byte>, c: seq<Byte>)
    ensures [] + x + y + a + b + c == x + (y + (a + b + c))
  {
  }

  lemma Snoc(ps: seq<Part>, n: nat)
    requires n < |ps|
    ensures PartsBytes(ps[..n + 1]) == PartsBytes(ps[..n]) + PartBytes(ps[n])
  {
    assert ps[..n + 1][..n] == ps[..n];
  }

  /** Two orders mix the same bytes exactly when their strings run together to the same text and all else agrees. */
  lemma OrderBytesExactly(o: Order, p: Order)
    ensures PartsBytes(OrderParts(o)) == PartsBytes(OrderParts(p)) <==>
            && OrderStrings(o) == OrderStrings(p)
            && o.(clientOrderId := p.clientOrderId, marketId := p.marketId, assetId := p.assetId) == p
  {
    hide OrderParts, PartsBytes, WordBytes, OrderHead;
    OrderShape(o);
    OrderShape(p);
    WordsAtTheEnd(OrderHead(o), OrderWords(o), OrderHead(p), OrderWords(p));
    WordsInFront(o.orderId, o.planId, OrderStrings(o), p.orderId, p.planId, OrderStrings(p));
    SameOrderWords(o, p);
  }

  lemma WordsInFront(v: Uint64, w: Uint64, a: seq<Byte>, v': Uint64, w': Uint64, b: seq<Byte>)
    ensures WordBytes(v) + (WordBytes(w) + a) == WordBytes(v') + (WordBytes(w') + b) <==> v == v' && w == w' && a == b
  {
    EqualTails(WordBytes(v), WordBytes(w) + a, WordBytes(v'), WordBytes(w') + b);
    EqualTails(WordBytes(w), a, WordBytes(w'), b);
    WordBytesDetermine(v, v');
    WordBytesDetermine(w, w');
  }

  lemma SameOrderWords(o: Order, p: Order)
    ensures OrderWords(o) == OrderWords(p) && o.orderId == p.orderId && o.planId == p.planId <==>
            o.(clientOrderId := p.clientOrderId, marketId := p.marketId, assetId := p.assetId) == p
  {
    var v, w := OrderWords(o), OrderWords(p);
    if v == w {
      assert v[0] == w[0] && v[1] == w[1] && v[2] == w[2] && v[3] == w[3] && v[4] == w[4] && v[5] == w[5];
    }
  }

  // Intents and plans: with strings of known lengths the bytes tell everything.

  /** The counted legs or orders are all there. */
  predicate CountsLegs(i: Intent) { i.legCount == |i.legs| }

  predicate CountsOrders(p: Plan) { p.orderCount == |p.orders| }

  predicate LegLengthsAgree(ls: seq<Leg>, ms: seq<Leg>) {
    forall k | 0 <= k < |ls| && k < |ms| ::
      |ls[k].marketId| == |ms[k].marketId| && |ls[k].assetId| == |ms[k].assetId|
  }

  predicate OrderLengthsAgree(os: seq<Order>, ps: seq<Order>) {
    forall k | 0 <= k < |os| && k < |ps| ::
      && |os[k].clientOrderId| == |ps[k].clientOrderId|
      && |os[k].marketId| == |ps[k].marketId| && |os[k].assetId| == |ps[k].assetId|
  }

  lemma LegLength(l: Leg)
    ensures |PartsBytes(LegParts(l))| == |l.marketId| + |l.assetId| + 72
  {
    hide LegParts, PartsBytes, LegWords;
    LegShape(l);
    EndLength([Text(l.marketId), Text(l.assetId)], LegWords(l));
  }

  lemma OrderLength(o: Order)
    ensures |PartsBytes(OrderParts(o))| == 16 + |OrderStrings(o)| + 48
  {
    hide OrderParts, PartsBytes;
    OrderShape(o);
    EndLength(OrderHead(o), OrderWords(o));
  }

  lemma {:induction false} EndLength(ps: seq<Part>, vs: seq<Uint64>)
    ensures |PartsBytes(ps + WordParts(vs))| == |PartsBytes(ps)| + 8 * |vs|
    decreases |vs|
  {
    if vs == [] {
      assert ps + WordParts(vs) == ps;
    } else {
      EndLength(ps, vs[..|vs| - 1]);
      LastWord(ps, vs);
    }
  }

  lemma SameLeg(l: Leg, m: Leg)
    requires |l.marketId| == |m.marketId| && |l.assetId| == |m.assetId|
    ensures PartsBytes(LegParts(l)) == PartsBytes(LegParts(m)) <==> l == m
  {
    hide LegParts, PartsBytes;
    LegBytesExactly(l, m);
    EqualTails(l.marketId, l.assetId, m.marketId, m.assetId);
  }

  lemma SameOrder(o: Order, p: Order)
    requires |o.clientOrderId| == |p.clientOrderId| && |o.marketId| == |p.marketId| && |o.assetId| == |p.assetId|
    ensures PartsBytes(OrderParts(o)) == PartsBytes(OrderParts(p)) <==> o == p
  {
    hide OrderParts, PartsBytes;
    OrderBytesExactly(o, p);
    EqualTails(o.clientOrderId + o.marketId, o.assetId, p.clientOrderId + p.marketId, p.assetId);
    EqualTails(o.clientOrderId, o.marketId, p.clientOrderId, p.marketId);
  }

  lemma {:induction false} SameLegs(ls: seq<Leg>, ms: seq<Leg>)
    requires |ls| == |ms| && LegLengthsAgree(ls, ms)
    ensures LegsBytes(ls) == LegsBytes(ms) <==> ls == ms
    decreases |ls|
  {
    hide LegParts, PartsBytes;
    if ls != [] {
      var n := |ls| - 1;
      SameLegs(ls[..n], ms[..n]);
      SameLeg(ls[n], ms[n]);
      LegLength(ls[n]);
      LegLength(ms[n]);
      EqualTails(LegsBytes(ls[..n]), PartsBytes(LegParts(ls[n])), LegsBytes(ms[..n]), PartsBytes(LegParts(ms[n])));
      assert ls == ls[..n] + [ls[n]] && ms == ms[..n] + [ms[n]];
    }
  }

  lemma {:induction false} SameOrders(os: seq<Order>, ps: seq<Order>)
    requires |os| == |ps| && OrderLengthsAgree(os, ps)
    ensures OrdersBytes(os) == OrdersBytes(ps) <==> os == ps
    decreases |os|
  {
    hide OrderParts, PartsBytes;
    if os != [] {
      var n := |os| - 1;
      SameOrders(os[..n], ps[..n]);
      SameOrder(os[n], ps[n]);
      OrderLength(os[n]);
      OrderLength(ps[n]);
      EqualTails(OrdersBytes(os[..n]), PartsBytes(OrderParts(os[n])), OrdersBytes(ps[..n]), PartsBytes(OrderParts(ps[n])));
      assert os == os[..n] + [os[n]] && ps == ps[..n] + [ps[n]];
    }
  }

  function IntentWords(i: Intent): (vs: seq<Uint64>)
    ensures |vs| == 15
  {
    [i.intentId, i.bundleId, i.status, i.oracleArtifactHash, i.constraintHash, i.bundleHash, i.snapshotVersion,
     i.snapshotVersionHash, i.bundleQty, i.unitEdgeTick, i.totalEdgeTick, i.edgeBps, i.idempotencyHash, i.proofHash,
     i.legCount]
  }

  lemma IntentShape(i: Intent)
    ensures IntentParts(i) == [] + WordParts(IntentWords(i)) && |PartsBytes(IntentParts(i))| == 120
  {
    hide PartsBytes;
    WordsAt(IntentWords(i));
    assert IntentParts(i) == [] + WordParts(IntentWords(i));
    EndLength([], IntentWords(i));
    NoBytes();
  }

  lemma NoBytes()
    ensures PartsBytes([]) == []
  {
  }

  lemma SameIntentWords(i: Intent, j: Intent)
    ensures IntentWords(i) == IntentWords(j) <==> i.(legs := j.legs) == j
  {
    var v, w := IntentWords(i), IntentWords(j);
    if v == w {
      assert v[0] == w[0] && v[1] == w[1] && v[2] == w[2] && v[3] == w[3] && v[4] == w[4] && v[5] == w[5];
      assert v[6] == w[6] && v[7] == w[7] && v[8] == w[8] && v[9] == w[9] && v[10] == w[10] && v[11] == w[11];
      assert v[12] == w[12] && v[13] == w[13] && v[14] == w[14];
    }
  }

  /** Intents whose legs have strings of equal lengths mix the same bytes exactly when they are equal. */
  lemma IntentBytesDetermine(i: Intent, j: Intent)
    requires CountsLegs(i) && CountsLegs(j) && LegLengthsAgree(i.legs, j.legs)
    ensures IntentBytes(i) == IntentBytes(j) <==> i == j
  {
    hide IntentParts, PartsBytes, LegsBytes, IntentWords;
    IntentShape(i);
    IntentShape(j);
    EqualTails(PartsBytes(IntentParts(i)), LegsBytes(i.legs), PartsBytes(IntentParts(j)), LegsBytes(j.legs));
    WordsAtTheEnd([], IntentWords(i), [], IntentWords(j));
    SameIntentWords(i, j);
    if |i.legs| == |j.legs| { SameLegs(i.legs, j.legs); }
  }

  function PlanWords(p: Plan): (vs: seq<Uint64>)
    ensures |vs| == 10
  {
    [p.planId, p.sourceIntentId, p.approvedIntentId, p.reservationId, p.bundleId, p.status, p.orderCount,
     p.maxTotalCostTick, p.minExpectedEdgeTick, p.maxSlippageTick]
  }

  lemma PlanShape(p: Plan)
    ensures PartsBytes(PlanParts(p)) == PartsBytes([] + WordParts(PlanWords(p))) + p.idempotencyKey
    ensures |PartsBytes([] + WordParts(PlanWords(p)))| == 80
  {
    WordsAt(PlanWords(p));
    var ps := PlanParts(p);
    assert ps[..10] == [] + WordParts(PlanWords(p));
    Snoc(ps, 10);
    assert ps[..11] == ps;
    EndLength([], PlanWords(p));
  }

  lemma SamePlanWords(p: Plan, q: Plan)
    ensures PlanWords(p) == PlanWords(q) <==> p.(idempotencyKey := q.idempotencyKey, orders := q.orders) == q
  {
    var v, w := PlanWords(p), PlanWords(q);
    if v == w {
      assert v[0] == w[0] && v[1] == w[1] && v[2] == w[2] && v[3] == w[3] && v[4] == w[4] && v[5] == w[5];
      assert v[6] == w[6] && v[7] == w[7] && v[8] == w[8] && v[9] == w[9];
    }
  }

  /** The same for plans, with idempotency keys of equal length. */
  lemma PlanBytesDetermine(p: Plan, q: Plan)
    requires CountsOrders(p) && CountsOrders(q) && OrderLengthsAgree(p.orders, q.orders)
    requires |p.idempotencyKey| == |q.idempotencyKey|
    ensures PlanBytes(p) == PlanBytes(q) <==> p == q
  {
    hide PlanParts, PartsBytes, OrdersBytes, PlanWords;
    PlanShape(p);
    PlanShape(q);
    var v, w := PartsBytes([] + WordParts(PlanWords(p))), PartsBytes([] + WordParts(PlanWords(q)));
    EqualTails(PartsBytes(PlanParts(p)), OrdersBytes(p.orders), PartsBytes(PlanParts(q)), OrdersBytes(q.orders));
    EqualTails(v, p.idempotencyKey, w, q.idempotencyKey);
    WordsAtTheEnd([], PlanWords(p), [], PlanWords(q));
    SamePlanWords(p, q);
    if |p.orders| == |q.orders| { SameOrders(p.orders, q.orders); }
  }
}
