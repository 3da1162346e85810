/**
 The expected-flow ledger of `tools/verify_market_state_workflow.cpp`: chain fills are
 confirmed and, after a reorganisation, removed again; two running totals must follow.
 Lots are unbounded integers here.
 */
module FlowLedger {

  datatype Direction = UnknownDirection | BuyAggressor | SellAggressor

  datatype Classification = UnknownClass | ChainConfirmed | ChainRemoved | UnmappedClass | AmbiguousClass

  datatype Mapping = Mapped | UnmappedMapping | AmbiguousMapping

  /** The members of a classified fill record that the ledger reads. */
  datatype Fill = Fill(
    id: string, direction: Direction, size: int, classification: Classification, mapping: Mapping, removed: bool)

  predicate IsChainConfirmed(f: Fill) { f.classification.ChainConfirmed? && !f.removed }

  predicate IsRemoved(f: Fill) { f.removed || f.classification.ChainRemoved? }

  predicate IsAmbiguous(f: Fill) { f.classification.AmbiguousClass? || f.mapping.AmbiguousMapping? }

  datatype Applied = Applied(direction: Direction, size: int, active: bool)

  datatype State = State(fills: map<string, Applied>, buy: int, sell: int)

  const EMPTY := State(map[], 0, 0)

  /** A confirmation that the ledger records. */
  predicate Records(f: Fill) {
    !IsRemoved(f) && IsChainConfirmed(f) && !IsAmbiguous(f) && !f.direction.UnknownDirection?
  }

  predicate IsActive(s: State, id: string) { id in s.fills && s.fills[id].active }

  function BuyPart(a: Applied): int { if a.active && a.direction.BuyAggressor? then a.size else 0 }

  function SellPart(a: Applied): int { if a.active && a.direction.SellAggressor? then a.size else 0 }

  function Apply(s: State, f: Fill): State {
    if IsRemoved(f) then
      if IsActive(s, f.id) then
        var a := s.fills[f.id];
        State(s.fills[f.id := a.(active := false)], s.buy - BuyPart(a), s.sell - SellPart(a))
      else s
    else if Records(f) then
      var a := Applied(f.direction, f.size, true);
      State(s.fills[f.id := a], s.buy + BuyPart(a), s.sell + SellPart(a))
    else s
  }

  /** A removal of an active fill takes off what was recorded, not what the removal carries. */
  lemma RemovalMeaning(s: State, f: Fill)
    requires f.removed || f.classification == ChainRemoved
    ensures var t := Apply(s, f);
      if f.id in s.fills && s.fills[f.id].active then
        var a := s.fills[f.id];
        && t.buy == s.buy - (if a.direction == BuyAggressor then a.size else 0)
        && t.sell == s.sell - (if a.direction == SellAggressor then a.size else 0)
        && t.fills == s.fills[f.id := Applied(a.direction, a.size, false)]
      else t == s
  {
  }

  /** A confirmed fill with a clear mapping and a direction is recorded and raises its total; any other changes nothing. */
  lemma ConfirmationMeaning(s: State, f: Fill)
    requires !f.removed && f.classification != ChainRemoved
    ensures var t := Apply(s, f);
      if f.classification == ChainConfirmed && f.mapping != AmbiguousMapping && f.direction != UnknownDirection then
        && t.fills == s.fills[f.id := Applied(f.direction, f.size, true)]
        && t.buy == s.buy + (if f.direction == BuyAggressor then f.size else 0)
        && t.sell == s.sell + (if f.direction == SellAggressor then f.size else 0)
      else t == s
  {
  }

  /** The ledger as the tool keeps it: a map and two totals changed in place. */
  class Ledger {
    var fills: map<string, Applied>
    var buy: int
    var sell: int

    ghost function Abstract(): State
      reads this
    {
      State(fills, buy, sell)
    }

    constructor ()
      ensures Abstract() == EMPTY
    {
      fills, buy, sell := map[], 0, 0;
    }

    method UpdateExpectedFlow(f: Fill)
      modifies this
      ensures Abstract() == Apply(old(Abstract()), f)
    {
      if IsRemoved(f) {
        if f.id in fills && fills[f.id].active {
          var a := fills[f.id];
          if a.direction == BuyAggressor {
            buy := buy - a.size;
          } else if a.direction == SellAggressor {
            sell := sell - a.size;
          }
          fills := fills[f.id := a.(active := false)];
        }
        return;
      }
      if !IsChainConfirmed(f) || IsAmbiguous(f) {
        return;
      }
      if f.direction == BuyAggressor {
        buy := buy + f.size;
        fills := fills[f.id := Applied(f.direction, f.size, true)];
      } else if f.direction == SellAggressor {
        sell := sell + f.size;
        fills := fills[f.id := Applied(f.direction, f.size, true)];
      }
    }
  }

  function Run(s: State, fs: seq<Fill>): State
    decreases |fs|
  {
    if fs == [] then s else Run(Apply(s, fs[0]), fs[1..])
  }

  // ---- Conservation ----

  /** Sum over a set of fill ids of what each of them contributes. */
  ghost function SumOf(fills: map<string, Applied>, part: Applied -> int): int
    decreases |fills|
  {
    if fills == map[] then 0
    else
      var id :| id in fills;
      part(fills[id]) + SumOf(fills - {id}, part)
  }

  /** The sum does not depend on which id is taken first. */
  lemma {:induction false} SumWithout(fills: map<string, Applied>, part: Applied -> int, id: string)
    requires id in fills
    ensures SumOf(fills, part) == part(fills[id]) + SumOf(fills - {id}, part)
    decreases |fills|
  {
    var first :| first in fills && SumOf(fills, part) == part(fills[first]) + SumOf(fills - {first}, part);
    if first != id {
      SumWithout(fills - {first}, part, id);
      SumWithout(fills - {id}, part, first);
      assert fills - {first} - {id} == fills - {id} - {first};
    }
  }

  lemma SumUpdate(fills: map<string, Applied>, part: Applied -> int, id: string, a: Applied)
    ensures SumOf(fills[id := a], part) ==
            SumOf(fills, part) + part(a) - if id in fills then part(fills[id]) else 0
  {
    SumWithout(fills[id := a], part, id);
    assert fills[id := a] - {id} == fills - {id};
    if id in fills {
      SumWithout(fills, part, id);
    } else {
      assert fills - {id} == fills;
    }
  }

  /** What a confirmation overwrites without taking it off the totals. */
  function Overwritten(s: State, f: Fill, part: Applied -> int): int {
    if Records(f) && f.id in s.fills then part(s.fills[f.id]) else 0
  }

  function OverwrittenIn(s: State, fs: seq<Fill>, part: Applied -> int): int
    decreases |fs|
  {
    if fs == [] then 0 else Overwritten(s, fs[0], part) + OverwrittenIn(Apply(s, fs[0]), fs[1..], part)
  }

  ghost function ActiveBuy(s: State): int { SumOf(s.fills, BuyPart) }

  ghost function ActiveSell(s: State): int { SumOf(s.fills, SellPart) }

  lemma StepConserves(s: State, f: Fill)
    ensures var t := Apply(s, f);
      && t.buy - ActiveBuy(t) == s.buy - ActiveBuy(s) + Overwritten(s, f, BuyPart)
      && t.sell - ActiveSell(t) == s.sell - ActiveSell(s) + Overwritten(s, f, SellPart)
  {
    if IsRemoved(f) && IsActive(s, f.id) {
      var a := s.fills[f.id].(active := false);
      SumUpdate(s.fills, BuyPart, f.id, a);
      SumUpdate(s.fills, SellPart, f.id, a);
    } else if Records(f) {
      var a := Applied(f.direction, f.size, true);
      SumUpdate(s.fills, BuyPart, f.id, a);
      SumUpdate(s.fills, SellPart, f.id, a);
    }
  }

  /** In every run, each total is the sum over the active fills plus what confirmations overwrote. */
  lemma {:induction false} RunConserves(s: State, fs: seq<Fill>)
    ensures var t := Run(s, fs);
      && t.buy - ActiveBuy(t) == s.buy - ActiveBuy(s) + OverwrittenIn(s, fs, BuyPart)
      && t.sell - ActiveSell(t) == s.sell - ActiveSell(s) + OverwrittenIn(s, fs, SellPart)
    decreases |fs|
  {
    if fs != [] {
      StepConserves(s, fs[0]);
      RunConserves(Apply(s, fs[0]), fs[1..]);
    }
  }

  /** No fill is confirmed again while it is active. */
  predicate NoReconfirmation(s: State, fs: seq<Fill>)
    decreases |fs|
  {
    if fs == [] then true
    else !(Records(fs[0]) && IsActive(s, fs[0].id)) && NoReconfirmation(Apply(s, fs[0]), fs[1..])
  }

  lemma {:induction false} NothingOverwritten(s: State, fs: seq<Fill>)
    requires NoReconfirmation(s, fs)
    ensures OverwrittenIn(s, fs, BuyPart) == 0 && OverwrittenIn(s, fs, SellPart) == 0
    decreases |fs|
  {
    if fs != [] { NothingOverwritten(Apply(s, fs[0]), fs[1..]); }
  }

  predicate PositiveSizes(s: State) { forall id | id in s.fills :: s.fills[id].size > 0 }

  predicate PositiveFills(fs: seq<Fill>) { forall k | 0 <= k < |fs| :: fs[k].size > 0 }

  predicate DirectedFills(s: State) { forall id | id in s.fills :: !s.fills[id].direction.UnknownDirection? }

  /** With positive sizes every reconfirmation leaves a trace, so nothing is overwritten only if there is none. */
  lemma {:induction false} SomethingOverwritten(s: State, fs: seq<Fill>)
    requires PositiveSizes(s) && PositiveFills(fs) && DirectedFills(s)
    ensures OverwrittenIn(s, fs, BuyPart) >= 0 && OverwrittenIn(s, fs, SellPart) >= 0
    ensures OverwrittenIn(s, fs, BuyPart) == 0 && OverwrittenIn(s, fs, SellPart) == 0 ==> NoReconfirmation(s, fs)
    decreases |fs|
  {
    if fs != [] {
      assert fs[0].size > 0;
      SomethingOverwritten(Apply(s, fs[0]), fs[1..]);
    }
  }

  /** The totals match the active fills at the end of every run without reconfirmations. */
  lemma TotalsMatchActiveFills(fs: seq<Fill>)
    requires NoReconfirmation(EMPTY, fs)
    ensures var t := Run(EMPTY, fs); t.buy == ActiveBuy(t) && t.sell == ActiveSell(t)
  {
    RunConserves(EMPTY, fs);
    NothingOverwritten(EMPTY, fs);
  }

  /** With positive sizes that condition is also necessary. */
  lemma TotalsMatchExactly(fs: seq<Fill>)
    requires PositiveFills(fs)
    ensures var t := Run(EMPTY, fs);
      t.buy == ActiveBuy(t) && t.sell == ActiveSell(t) <==> NoReconfirmation(EMPTY, fs)
  {
    RunConserves(EMPTY, fs);
    if NoReconfirmation(EMPTY, fs) {
      NothingOverwritten(EMPTY, fs);
    }
    SomethingOverwritten(EMPTY, fs);
  }

  /** The smallest run that breaks the totals: one fill confirmed twice. */
  lemma ReconfirmationBreaksTotals()
    ensures var f := Fill("x", BuyAggressor, 1, ChainConfirmed, Mapped, false);
      var t := Run(EMPTY, [f, f]); t.buy == 2 && ActiveBuy(t) == 1
  {
    var f := Fill("x", BuyAggressor, 1, ChainConfirmed, Mapped, false);
    assert [f, f][1..] == [f];
    RunConserves(EMPTY, [f, f]);
    var s := Apply(EMPTY, f);
    assert Run(s, [f]) == Apply(s, f);
    assert OverwrittenIn(s, [f], BuyPart) == 1;
  }

  // ---- Removal ----

  /** A removal after a recorded confirmation restores the totals, whatever size and direction the removal carries. */
  lemma RemovalUndoesConfirmation(s: State, f: Fill, r: Fill)
    requires Records(f) && IsRemoved(r) && r.id == f.id
    ensures var t := Apply(Apply(s, f), r); t.buy == s.buy && t.sell == s.sell && !IsActive(t, f.id)
    ensures Apply(Apply(Apply(s, f), r), r) == Apply(Apply(s, f), r)
  {
  }

  // ---- Different fills do not interfere ----

  lemma DifferentFillsCommute(s: State, f: Fill, g: Fill)
    requires f.id != g.id
    ensures Apply(Apply(s, f), g) == Apply(Apply(s, g), f)
  {
    var a, b := Apply(s, f), Apply(s, g);
    assert f.id in b.fills <==> f.id in s.fills;
    assert f.id in s.fills ==> b.fills[f.id] == s.fills[f.id];
    assert g.id in a.fills <==> g.id in s.fills;
    assert g.id in s.fills ==> a.fills[g.id] == s.fills[g.id];
    assert Apply(a, g).fills == Apply(b, f).fills;
  }

  /** The events of one fill, in order. */
  function Of(fs: seq<Fill>, id: string): seq<Fill> {
    if fs == [] then [] else (if fs[0].id == id then [fs[0]] else []) + Of(fs[1..], id)
  }

  ghost predicate SameHistories(fs: seq<Fill>, gs: seq<Fill>) { forall id :: Of(fs, id) == Of(gs, id) }

  /** An event moves to the front past events of other fills. */
  lemma {:induction false} MoveToFront(s: State, before: seq<Fill>, f: Fill, after: seq<Fill>)
    requires forall k | 0 <= k < |before| :: before[k].id != f.id
    ensures Run(s, before + ([f] + after)) == Run(Apply(s, f), before + after)
    decreases |before|
  {
    if before == [] {
      assert before + ([f] + after) == [f] + after && before + after == after;
    } else {
      var g := before[0];
      assert (before + ([f] + after))[1..] == before[1..] + ([f] + after);
      assert (before + after)[1..] == before[1..] + after;
      MoveToFront(Apply(s, g), before[1..], f, after);
      DifferentFillsCommute(s, f, g);
    }
  }

  lemma {:induction false} OfConcat(a: seq<Fill>, b: seq<Fill>, id: string)
    ensures Of(a + b, id) == Of(a, id) + Of(b, id)
    decreases |a|
  {
    if a == [] {
      assert a + b == b;
    } else {
      assert (a + b)[0] == a[0] && (a + b)[1..] == a[1..] + b;
      OfConcat(a[1..], b, id);
      var head := if a[0].id == id then [a[0]] else [];
      assert head + (Of(a[1..], id) + Of(b, id)) == head + Of(a[1..], id) + Of(b, id);
    }
  }

  /** The first event of a fill, and everything before it belongs to other fills. */
  lemma {:induction false} FirstOf(fs: seq<Fill>, id: string) returns (n: nat)
    requires Of(fs, id) != []
    ensures n < |fs| && fs[n] == Of(fs, id)[0] && fs[n].id == id
    ensures forall k | 0 <= k < n :: fs[k].id != id
    decreases |fs|
  {
    if fs[0].id == id {
      n := 0;
    } else {
      var m := FirstOf(fs[1..], id);
      n := m + 1;
    }
  }

  lemma {:induction false} EmptyHistories(gs: seq<Fill>)
    requires SameHistories([], gs)
    ensures gs == []
  {
    if gs != [] { assert Of(gs, gs[0].id) == Of([], gs[0].id); }
  }

  /** Any two interleavings of the same per-fill histories end in the same state: same totals, same active fills. */
  lemma {:induction false} InterleavingIrrelevant(s: State, fs: seq<Fill>, gs: seq<Fill>)
    requires SameHistories(fs, gs)
    ensures Run(s, fs) == Run(s, gs)
    decreases |fs|
  {
    if fs == [] {
      EmptyHistories(gs);
    } else {
      var f := fs[0];
      assert Of(gs, f.id) == Of(fs, f.id);
      var n := FirstOf(gs, f.id);
      var before, after := gs[..n], gs[n + 1..];
      assert gs == before + ([f] + after);
      MoveToFront(s, before, f, after);
      RestHistories(fs, before, after);
      InterleavingIrrelevant(Apply(s, f), fs[1..], before + after);
    }
  }

  /** Taking the same first event out of both leaves the same histories. */
  lemma RestHistories(fs: seq<Fill>, before: seq<Fill>, after: seq<Fill>)
    requires fs != [] && (forall k | 0 <= k < |before| :: before[k].id != fs[0].id)
    requires SameHistories(fs, before + ([fs[0]] + after))
    ensures SameHistories(fs[1..], before + after)
  {
    var f := fs[0];
    forall id ensures Of(fs[1..], id) == Of(before + after, id) {
      OfConcat(before, [f] + after, id);
      OfConcat([f], after, id);
      OfConcat(before, after, id);
      assert Of(fs, id) == Of(before + ([f] + after), id);
      assert Of([f], id) == if f.id == id then [f] else [];
      if id == f.id {
        OfNone(before, id);
        assert Of(fs, id)[1..] == Of(fs[1..], id);
        assert ([] + ([f] + Of(after, id)))[1..] == Of(after, id);
      } else {
        assert [] + Of(after, id) == Of(after, id) && Of(fs, id) == Of(fs[1..], id);
      }
    }
  }

  lemma {:induction false} OfNone(fs: seq<Fill>, id: string)
    requires forall k | 0 <= k < |fs| :: fs[k].id != id
    ensures Of(fs, id) == []
    decreases |fs|
  {
    if fs != [] { OfNone(fs[1..], id); }
  }

  // ---- Counters ----

  datatype Counters = Counters(
    logs: nat, classified: nat, removed: nat, ambiguous: nat, buys: nat, sells: nat, unknown: nat)

  function Count(c: Counters, f: Fill): Counters {
    var c := c.(logs := c.logs + 1, classified := c.classified + 1);
    if IsRemoved(f) then c.(removed := c.removed + 1)
    else if IsAmbiguous(f) then c.(ambiguous := c.ambiguous + 1)
    else if f.direction.BuyAggressor? && IsChainConfirmed(f) then c.(buys := c.buys + 1)
    else if f.direction.SellAggressor? && IsChainConfirmed(f) then c.(sells := c.sells + 1)
    else c.(unknown := c.unknown + 1)
  }

  class ChainCounters {
    var c: Counters

    method CountChainFill(f: Fill)
      modifies this
      ensures c == Count(old(c), f)
    {
      c := c.(logs := c.logs + 1, classified := c.classified + 1);
      if IsRemoved(f) {
        c := c.(removed := c.removed + 1);
        return;
      }
      if IsAmbiguous(f) {
        c := c.(ambiguous := c.ambiguous + 1);
        return;
      }
      if f.direction == BuyAggressor && IsChainConfirmed(f) {
        c := c.(buys := c.buys + 1);
      } else if f.direction == SellAggressor && IsChainConfirmed(f) {
        c := c.(sells := c.sells + 1);
      } else {
        c := c.(unknown := c.unknown + 1);
      }
    }
  }

  function Counted(c: Counters, fs: seq<Fill>): Counters
    decreases |fs|
  {
    if fs == [] then c else Counted(Count(c, fs[0]), fs[1..])
  }

  datatype Kind = Removals | Ambiguities | Buys | Sells | Others

  /** What kind a fill is, by the members of its record. */
  predicate IsOfKind(f: Fill, k: Kind) {
    var gone := f.removed || f.classification == ChainRemoved;
    var unclear := f.classification == AmbiguousClass || f.mapping == AmbiguousMapping;
    var confirmed := !gone && !unclear && f.classification == ChainConfirmed;
    match k
    case Removals => gone
    case Ambiguities => !gone && unclear
    case Buys => confirmed && f.direction == BuyAggressor
    case Sells => confirmed && f.direction == SellAggressor
    case Others => !gone && !unclear && !(confirmed && (f.direction == BuyAggressor || f.direction == SellAggressor))
  }

  /** How many of the fills are of a kind. */
  function HowMany(fs: seq<Fill>, k: Kind): nat {
    if fs == [] then 0 else OneIf(IsOfKind(fs[0], k)) + HowMany(fs[1..], k)
  }

  function OneIf(b: bool): nat { if b then 1 else 0 }

  lemma OneFillCounted(c: Counters, f: Fill)
    ensures var d := Count(c, f);
      && d.logs == c.logs + 1 && d.classified == c.classified + 1
      && d.removed == c.removed + OneIf(IsOfKind(f, Removals))
      && d.ambiguous == c.ambiguous + OneIf(IsOfKind(f, Ambiguities))
      && d.buys == c.buys + OneIf(IsOfKind(f, Buys))
      && d.sells == c.sells + OneIf(IsOfKind(f, Sells))
      && d.unknown == c.unknown + OneIf(IsOfKind(f, Others))
    ensures OneIf(IsOfKind(f, Removals)) + OneIf(IsOfKind(f, Ambiguities)) + OneIf(IsOfKind(f, Buys))
            + OneIf(IsOfKind(f, Sells)) + OneIf(IsOfKind(f, Others)) == 1
  {
  }

  /** The five counters split the classified fills: each grows by the number of fills of its kind. */
  lemma {:induction false} CountersSplit(c: Counters, fs: seq<Fill>)
    ensures var d := Counted(c, fs);
      && d.logs == c.logs + |fs| && d.classified == c.classified + |fs|
      && d.removed == c.removed + HowMany(fs, Removals)
      && d.ambiguous == c.ambiguous + HowMany(fs, Ambiguities)
      && d.buys == c.buys + HowMany(fs, Buys)
      && d.sells == c.sells + HowMany(fs, Sells)
      && d.unknown == c.unknown + HowMany(fs, Others)
    ensures HowMany(fs, Removals) + HowMany(fs, Ambiguities) + HowMany(fs, Buys) + HowMany(fs, Sells)
            + HowMany(fs, Others) == |fs|
    decreases |fs|
  {
    hide Count, IsOfKind, OneIf;
    if fs != [] {
      OneFillCounted(c, fs[0]);
      CountersSplit(Count(c, fs[0]), fs[1..]);
    }
  }

  /**
   With positive sizes a fill is counted as a buy exactly when it raises the buy total, and then by its size
   and nothing else; the same for sells.  A fill that is neither, nor a removal, changes nothing.
   */
  lemma CountedFillsRaiseTotals(c: Counters, s: State, f: Fill)
    requires f.size > 0 && PositiveSizes(s)
    ensures Count(c, f).buys > c.buys <==> Apply(s, f).buy > s.buy
    ensures Count(c, f).sells > c.sells <==> Apply(s, f).sell > s.sell
    ensures Count(c, f).buys > c.buys ==> Apply(s, f).buy == s.buy + f.size && Apply(s, f).sell == s.sell
    ensures Count(c, f).sells > c.sells ==> Apply(s, f).sell == s.sell + f.size && Apply(s, f).buy == s.buy
    ensures Count(c, f).buys == c.buys && Count(c, f).sells == c.sells && !IsRemoved(f) ==> Apply(s, f) == s
  {
  }

  /** Every run of fills with positive sizes keeps the recorded sizes positive. */
  lemma {:induction false} RunKeepsSizesPositive(s: State, fs: seq<Fill>)
    requires PositiveSizes(s) && PositiveFills(fs)
    ensures PositiveSizes(Run(s, fs))
    decreases |fs|
  {
    if fs != [] {
      assert fs[0].size > 0;
      RunKeepsSizesPositive(Apply(s, fs[0]), fs[1..]);
    }
  }

  /** Whatever the sizes, the fills counted as buys or sells are exactly those the ledger records. */
  lemma CountedExactlyWhenRecorded(c: Counters, f: Fill)
    ensures Count(c, f).buys > c.buys <==> Records(f) && f.direction == BuyAggressor
    ensures Count(c, f).sells > c.sells <==> Records(f) && f.direction == SellAggressor
    ensures Records(f) <==> IsOfKind(f, Buys) || IsOfKind(f, Sells)
  {
  }
}
