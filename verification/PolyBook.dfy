/**
 The order books of `research/poly_btc_above_fair_research.py`: level maps per side with cached
 best prices, replaced by book snapshots and edited by price changes.  Floats are reals; a
 number that is missing or not finite reads as NaN, here `None`.
 */
module PolyBook {
  import opened Options

  type Levels = map<real, real>

  datatype Book = Book(bids: Levels, asks: Levels, bestBid: Option<real>, bestAsk: Option<real>,
                       lastTrade: Option<real>, lastUpdateNs: int)

  const NEW_BOOK := Book(map[], map[], None, None, None, 0)

  /** A level of a snapshot; anything but a record is skipped. */
  datatype Level = NoRecord | Level(price: Option<real>, size: Option<real>)

  /** A price change; `side` is already in upper case, and anything but a record is skipped. */
  datatype Change = NoChange
                  | Change(asset: string, price: Option<real>, size: Option<real>, side: string,
                           bestBid: Option<real>, bestAsk: Option<real>)

  /** A size that cannot be read is zero. */
  function SizeOf(x: Option<real>): real { if x.Some? then x.value else 0.0 }

  predicate Usable(l: Level) { l.Level? && Positive(l.price) && SizeOf(l.size) > 0.0 }

  // Best prices.

  predicate AtLeastAsGood(highest: bool, p: real, q: real) { if highest then p >= q else p <= q }

  /** `r` is the best price with something on offer, or missing if there is none. */
  ghost predicate IsBest(levels: Levels, highest: bool, r: Option<real>) {
    && (r.None? ==> forall p | p in levels :: levels[p] <= 0.0)
    && (r.Some? ==> r.value in levels && levels[r.value] > 0.0)
    && (r.Some? ==> forall p | p in levels :: levels[p] > 0.0 ==> if highest then r.value >= p else r.value <= p)
  }

  lemma BestIsUnique(levels: Levels, highest: bool, r: Option<real>, s: Option<real>)
    requires IsBest(levels, highest, r) && IsBest(levels, highest, s)
    ensures r == s
  {
    if r.Some? && s.Some? {
      assert AtLeastAsGood(highest, r.value, s.value);
      assert AtLeastAsGood(highest, s.value, r.value);
    }
  }

  lemma SomePrice(keys: set<real>)
    requires keys != {}
    ensures exists p :: p in keys
  {
    assert (forall p :: p !in keys) ==> keys == {};
  }

  lemma {:induction false} BestExists(levels: Levels, keys: set<real>, highest: bool) returns (r: Option<real>)
    requires keys <= levels.Keys
    ensures r.None? ==> forall p | p in keys :: levels[p] <= 0.0
    ensures r.Some? ==> r.value in keys && levels[r.value] > 0.0
    ensures r.Some? ==> forall p | p in keys :: levels[p] > 0.0 ==> AtLeastAsGood(highest, r.value, p)
    decreases |keys|
  {
    if keys == {} {
      r := None;
    } else {
      SomePrice(keys);
      var q :| q in keys;
      r := BestExists(levels, keys - {q}, highest);
      if levels[q] > 0.0 && (r.None? || AtLeastAsGood(highest, q, r.value)) { r := Some(q); }
    }
  }

  ghost function Best(levels: Levels, highest: bool): (r: Option<real>)
    ensures IsBest(levels, highest, r)
  {
    assert exists r :: IsBest(levels, highest, r) by {
      var r := BestExists(levels, levels.Keys, highest);
      assert IsBest(levels, highest, r);
    }
    var r :| IsBest(levels, highest, r);
    r
  }

  method FindBest(levels: Levels, highest: bool) returns (r: Option<real>)
    ensures IsBest(levels, highest, r)
    ensures r == Best(levels, highest)
  {
    r := None;
    var rest := levels.Keys;
    while rest != {}
      invariant rest <= levels.Keys
      invariant r.None? ==> forall p | p in levels.Keys - rest :: levels[p] <= 0.0
      invariant r.Some? ==> r.value in levels && levels[r.value] > 0.0
      invariant r.Some? ==> forall p | p in levels.Keys - rest :: levels[p] > 0.0 ==> AtLeastAsGood(highest, r.value, p)
      decreases |rest|
    {
      SomePrice(rest);
      var p :| p in rest;
      rest := rest - {p};
      if levels[p] > 0.0 && (r.None? || !AtLeastAsGood(highest, r.value, p)) { r := Some(p); }
    }
    BestIsUnique(levels, highest, r, Best(levels, highest));
  }

  // Snapshots.

  /** The first `n` levels read in order; a later level replaces an earlier one at its price. */
  function LevelsOf(levels: seq<Level>, n: nat): Levels
    requires n <= |levels|
  {
    if n == 0 then map[]
    else if Usable(levels[n - 1]) then LevelsOf(levels, n - 1)[levels[n - 1].price.value := SizeOf(levels[n - 1].size)]
    else LevelsOf(levels, n - 1)
  }

  method ReadLevels(levels: seq<Level>) returns (m: Levels)
    ensures m == LevelsOf(levels, |levels|)
  {
    m := map[];
    for i := 0 to |levels|
      invariant m == LevelsOf(levels, i)
    {
      if Usable(levels[i]) { m := m[levels[i].price.value := SizeOf(levels[i].size)]; }
    }
  }

  predicate OffersAt(l: Level, p: real) { l.Level? && l.price == Some(p) && p > 0.0 && l.size.Some? && l.size.value > 0.0 }

  /** Level `k` is the last of the first `n` that offers something at price `p`. */
  predicate IsLastAt(levels: seq<Level>, n: nat, p: real, k: nat) {
    && k < n <= |levels| && OffersAt(levels[k], p)
    && forall i | k < i < n :: !OffersAt(levels[i], p)
  }

  /** A price is in the map exactly when some level offers there, with the size of the last such level. */
  lemma {:induction false} LastLevelWins(levels: seq<Level>, n: nat, p: real)
    requires n <= |levels|
    ensures p in LevelsOf(levels, n) <==> exists k: nat :: IsLastAt(levels, n, p, k)
    ensures forall k: nat | IsLastAt(levels, n, p, k) :: LevelsOf(levels, n)[p] == levels[k].size.value
  {
    if n > 0 {
      LastLevelWins(levels, n - 1, p);
      if OffersAt(levels[n - 1], p) {
        assert IsLastAt(levels, n, p, n - 1);
      } else {
        var before := LevelsOf(levels, n - 1);
        assert p in LevelsOf(levels, n) <==> p in before;
        if p in before {
          var k: nat :| IsLastAt(levels, n - 1, p, k);
          assert IsLastAt(levels, n, p, k);
        }
        forall k: nat | IsLastAt(levels, n, p, k) ensures IsLastAt(levels, n - 1, p, k) {}
      }
    }
  }

  ghost function Refreshed(b: Book): Book {
    b.(bestBid := Best(b.bids, true), bestAsk := Best(b.asks, false))
  }

  ghost function SnapshotBook(bids: seq<Level>, asks: seq<Level>, lastTrade: Option<real>, ts: int): Book {
    Refreshed(Book(LevelsOf(bids, |bids|), LevelsOf(asks, |asks|), None, None, lastTrade, ts))
  }

  /** The price is held exactly when a level offers it, with the size of the last level that does. */
  ghost predicate HeldAt(side: Levels, levels: seq<Level>, p: real) {
    && (p in side <==> exists k: nat :: IsLastAt(levels, |levels|, p, k))
    && forall k: nat | p in side && IsLastAt(levels, |levels|, p, k) :: side[p] == levels[k].size.value
  }

  ghost predicate HoldsSide(side: Levels, levels: seq<Level>) { forall p :: HeldAt(side, levels, p) }

  /** The book shows these bids and asks: the best bid is the highest, the best ask the lowest. */
  ghost predicate ShowsBook(b: Book, bids: seq<Level>, asks: seq<Level>, lastTrade: Option<real>, ts: int) {
    && HoldsSide(b.bids, bids) && HoldsSide(b.asks, asks)
    && (b.bestBid.None? <==> b.bids == map[])
    && (b.bestBid.Some? ==> b.bestBid.value in b.bids && forall p | p in b.bids :: p <= b.bestBid.value)
    && (b.bestAsk.None? <==> b.asks == map[])
    && (b.bestAsk.Some? ==> b.bestAsk.value in b.asks && forall p | p in b.asks :: p >= b.bestAsk.value)
    && b.lastTrade == lastTrade && b.lastUpdateNs == ts
  }

  lemma SideIsHeld(levels: seq<Level>)
    ensures HoldsSide(LevelsOf(levels, |levels|), levels)
  {
    forall p ensures HeldAt(LevelsOf(levels, |levels|), levels, p) {
      LastLevelWins(levels, |levels|, p);
    }
  }

  /** A snapshot is shown as it came, whatever the order of its levels. */
  lemma SnapshotIsShown(bids: seq<Level>, asks: seq<Level>, lastTrade: Option<real>, ts: int)
    ensures ShowsBook(SnapshotBook(bids, asks, lastTrade, ts), bids, asks, lastTrade, ts)
  {
    hide HoldsSide, LevelsOf;
    SideIsHeld(bids);
    SideIsHeld(asks);
    LevelsArePositive(bids, |bids|);
    LevelsArePositive(asks, |asks|);
    var b := SnapshotBook(bids, asks, lastTrade, ts);
    BestOfPositive(b.bids, true, b.bestBid);
    BestOfPositive(b.asks, false, b.bestAsk);
  }

  /** Where every size is positive, the best price is the extreme one, and it is missing only where nothing is. */
  lemma BestOfPositive(levels: Levels, highest: bool, r: Option<real>)
    requires AllPositive(levels) && IsBest(levels, highest, r)
    ensures r.None? <==> levels == map[]
    ensures r.Some? ==> r.value in levels && forall p | p in levels :: if highest then p <= r.value else p >= r.value
  {
    if r.None? {
      assert forall p | p in levels :: levels[p] > 0.0;
      assert forall p :: p !in levels;
    }
  }

  // Price changes.

  function Edited(levels: Levels, price: real, size: real): Levels {
    if size <= 0.0 then levels - {price} else levels[price := size]
  }

  /** The levels after a change, the cached prices untouched. */
  function WithLevel(b: Book, c: Change): Book
    requires c.Change?
  {
    if !Positive(c.price) then b
    else if c.side == "BUY" then b.(bids := Edited(b.bids, c.price.value, SizeOf(c.size)))
    else b.(asks := Edited(b.asks, c.price.value, SizeOf(c.size)))
  }

  function Preferred(carried: Option<real>, cached: Option<real>): Option<real> {
    if Positive(carried) then carried else cached
  }

  /** The cached prices are refreshed only when one of them is still missing. */
  ghost function Changed(b: Book, c: Change, ts: int): Book
    requires c.Change?
  {
    var l := WithLevel(b, c).(bestBid := Preferred(c.bestBid, b.bestBid), bestAsk := Preferred(c.bestAsk, b.bestAsk));
    (if l.bestBid.None? || l.bestAsk.None? then Refreshed(l) else l).(lastUpdateNs := ts)
  }

  /** A positive price is edited on the named side: removed without a positive size, else set to it. */
  ghost predicate SideAfter(before: Levels, after: Levels, c: Change, named: bool)
    requires c.Change?
  {
    forall p ::
      if named && c.price == Some(p) && p > 0.0 then
        && (p in after <==> c.size.Some? && c.size.value > 0.0)
        && (p in after ==> after[p] == c.size.value)
      else
        && (p in after <==> p in before)
        && (p in after ==> after[p] == before[p])
  }

  /** Buys edit the bids, all else the asks; carried prices are taken over, and one that is missing is looked for. */
  lemma ChangeMeaning(b: Book, c: Change, ts: int)
    requires c.Change?
    ensures var r := Changed(b, c, ts);
            && SideAfter(b.bids, r.bids, c, c.side == "BUY") && SideAfter(b.asks, r.asks, c, c.side != "BUY")
            && r.lastTrade == b.lastTrade && r.lastUpdateNs == ts
    ensures var r := Changed(b, c, ts);
            var bid := if c.bestBid.Some? && c.bestBid.value > 0.0 then c.bestBid else b.bestBid;
            var ask := if c.bestAsk.Some? && c.bestAsk.value > 0.0 then c.bestAsk else b.bestAsk;
            if bid.Some? && ask.Some? then r.bestBid == bid && r.bestAsk == ask
            else IsBest(r.bids, true, r.bestBid) && IsBest(r.asks, false, r.bestAsk)
  {
    hide IsBest;
    if Positive(c.price) {
      EditedSide(b.bids, c, c.side == "BUY");
      EditedSide(b.asks, c, c.side != "BUY");
    }
  }

  lemma EditedSide(levels: Levels, c: Change, named: bool)
    requires c.Change? && Positive(c.price)
    ensures SideAfter(levels, if named then Edited(levels, c.price.value, SizeOf(c.size)) else levels, c, named)
  {
  }

  type Books = map<string, Book>

  ghost function ChangeBooks(books: Books, c: Change, ts: int): Books {
    if c.Change? && c.asset in books then books[c.asset := Changed(books[c.asset], c, ts)] else books
  }

  ghost function ChangeAll(books: Books, changes: seq<Change>, n: nat, ts: int): Books
    requires n <= |changes|
  {
    if n == 0 then books else ChangeBooks(ChangeAll(books, changes, n - 1, ts), changes[n - 1], ts)
  }

  /** The changes that name an asset, in order. */
  function Naming(changes: seq<Change>, asset: string, n: nat): (r: seq<Change>)
    requires n <= |changes|
    ensures forall i | 0 <= i < |r| :: r[i].Change? && r[i].asset == asset
  {
    if n == 0 then []
    else Naming(changes, asset, n - 1)
         + if changes[n - 1].Change? && changes[n - 1].asset == asset then [changes[n - 1]] else []
  }

  ghost function ChangeInTurn(b: Book, changes: seq<Change>, ts: int): Book
    requires forall i | 0 <= i < |changes| :: changes[i].Change?
  {
    if changes == [] then b
    else Changed(ChangeInTurn(b, changes[..|changes| - 1], ts), changes[|changes| - 1], ts)
  }

  /** Each book takes exactly the changes that name it, one after the other, and no book comes or goes. */
  lemma {:induction false} BooksTakeTheirChanges(books: Books, changes: seq<Change>, n: nat, ts: int, asset: string)
    requires n <= |changes|
    ensures var after := ChangeAll(books, changes, n, ts);
            && (asset in after <==> asset in books)
            && (asset in books ==> after[asset] == ChangeInTurn(books[asset], Naming(changes, asset, n), ts))
  {
    hide Changed;
    if n > 0 {
      BooksTakeTheirChanges(books, changes, n - 1, ts, asset);
      var before, all := Naming(changes, asset, n - 1), Naming(changes, asset, n);
      if changes[n - 1].Change? && changes[n - 1].asset == asset {
        assert all[..|all| - 1] == before && all[|all| - 1] == changes[n - 1];
      } else {
        assert all == before;
      }
    }
  }

  class PolyState {
    var books: Books
    var bookSnapshots: nat
    var priceChanges: nat

    constructor (assets: set<string>)
      ensures books == NewBooks(assets) && bookSnapshots == 0 && priceChanges == 0
      ensures books.Keys == assets && forall a | a in books :: books[a] == Book(map[], map[], None, None, None, 0)
    {
      books := map a | a in assets :: NEW_BOOK;
      bookSnapshots, priceChanges := 0, 0;
    }

    method ObserveBook(asset: string, bids: seq<Level>, asks: seq<Level>, lastTrade: Option<real>, ts: int)
      modifies this
      ensures books == if asset in old(books) then old(books)[asset := SnapshotBook(bids, asks, lastTrade, ts)]
                       else old(books)
      ensures asset in old(books) ==> ShowsBook(books[asset], bids, asks, lastTrade, ts)
      ensures bookSnapshots == old(bookSnapshots) + if asset in old(books) then 1 else 0
      ensures priceChanges == old(priceChanges)
    {
      if asset !in books { return; }
      var bidLevels := ReadLevels(bids);
      var askLevels := ReadLevels(asks);
      var bestBid := FindBest(bidLevels, true);
      var bestAsk := FindBest(askLevels, false);
      books := books[asset := Book(bidLevels, askLevels, bestBid, bestAsk, lastTrade, ts)];
      SnapshotIsShown(bids, asks, lastTrade, ts);
      bookSnapshots := bookSnapshots + 1;
    }

    method ObservePriceChange(changes: seq<Change>, ts: int)
      modifies this
      ensures books == ChangeAll(old(books), changes, |changes|, ts)
      ensures priceChanges == old(priceChanges) + |changes|
      ensures bookSnapshots == old(bookSnapshots)
    {
      for i := 0 to |changes|
        invariant books == ChangeAll(old(books), changes, i, ts)
        invariant priceChanges == old(priceChanges) && bookSnapshots == old(bookSnapshots)
      {
        var c := changes[i];
        if c.Change? && c.asset in books {
          var b := ApplyChange(books[c.asset], c, ts);
          books := books[c.asset := b];
        }
      }
      priceChanges := priceChanges + |changes|;
    }
  }

  method ApplyChange(b: Book, c: Change, ts: int) returns (r: Book)
    requires c.Change?
    ensures r == Changed(b, c, ts)
  {
    r := b;
    if Positive(c.price) {
      var size := SizeOf(c.size);
      var levels := if c.side == "BUY" then b.bids else b.asks;
      levels := if size <= 0.0 then levels - {c.price.value} else levels[c.price.value := size];
      r := if c.side == "BUY" then b.(bids := levels) else b.(asks := levels);
    }
    if Positive(c.bestBid) { r := r.(bestBid := c.bestBid); }
    if Positive(c.bestAsk) { r := r.(bestAsk := c.bestAsk); }
    if r.bestBid.None? || r.bestAsk.None? {
      var bestBid := FindBest(r.bids, true);
      var bestAsk := FindBest(r.asks, false);
      r := r.(bestBid := bestBid, bestAsk := bestAsk);
    }
    r := r.(lastUpdateNs := ts);
  }

  function NewBooks(assets: set<string>): Books { map a | a in assets :: NEW_BOOK }

  // Runs.

  datatype Message = Snapshot(asset: string, bids: seq<Level>, asks: seq<Level>, lastTrade: Option<real>, ts: int)
                   | Changes(changes: seq<Change>, at: int)

  ghost function Handle(books: Books, m: Message): Books {
    match m
    case Snapshot(asset, bids, asks, lastTrade, ts) =>
      if asset in books then books[asset := SnapshotBook(bids, asks, lastTrade, ts)] else books
    case Changes(changes, ts) => ChangeAll(books, changes, |changes|, ts)
  }

  ghost function Run(assets: set<string>, messages: seq<Message>, n: nat): Books
    requires n <= |messages|
  {
    if n == 0 then NewBooks(assets) else Handle(Run(assets, messages, n - 1), messages[n - 1])
  }

  // What every reachable book satisfies.

  ghost predicate AllPositive(levels: Levels) { forall p | p in levels :: p > 0.0 && levels[p] > 0.0 }

  /** Levels have positive price and size, and a missing best price means an empty side. */
  ghost predicate Sound(b: Book) {
    && AllPositive(b.bids) && AllPositive(b.asks)
    && (b.bestBid.None? ==> b.bids == map[])
    && (b.bestAsk.None? ==> b.asks == map[])
  }

  lemma {:induction false} LevelsArePositive(levels: seq<Level>, n: nat)
    requires n <= |levels|
    ensures AllPositive(LevelsOf(levels, n))
  {
    if n > 0 { LevelsArePositive(levels, n - 1); }
  }

  lemma RefreshedIsSound(b: Book)
    requires AllPositive(b.bids) && AllPositive(b.asks)
    ensures Sound(Refreshed(b))
  {
    var r := Refreshed(b);
    if r.bestBid.None? { assert forall p | p in r.bids :: false; }
    if r.bestAsk.None? { assert forall p | p in r.asks :: false; }
  }

  lemma ChangeKeepsSound(b: Book, c: Change, ts: int)
    requires c.Change? && Sound(b)
    ensures Sound(Changed(b, c, ts))
  {
    var l := WithLevel(b, c);
    assert AllPositive(l.bids) && AllPositive(l.asks);
    RefreshedIsSound(l.(bestBid := Preferred(c.bestBid, b.bestBid), bestAsk := Preferred(c.bestAsk, b.bestAsk)));
  }

  ghost predicate AllSound(books: Books) { forall a | a in books :: Sound(books[a]) }

  lemma {:induction false} ChangesKeepSound(books: Books, changes: seq<Change>, n: nat, ts: int)
    requires n <= |changes| && AllSound(books)
    ensures AllSound(ChangeAll(books, changes, n, ts))
  {
    if n > 0 {
      ChangesKeepSound(books, changes, n - 1, ts);
      var before, c := ChangeAll(books, changes, n - 1, ts), changes[n - 1];
      if c.Change? && c.asset in before { ChangeKeepsSound(before[c.asset], c, ts); }
    }
  }

  /** Every book of every reachable state is sound. */
  lemma {:induction false} RunKeepsSound(assets: set<string>, messages: seq<Message>, n: nat)
    requires n <= |messages|
    ensures AllSound(Run(assets, messages, n))
  {
    if n > 0 {
      RunKeepsSound(assets, messages, n - 1);
      match messages[n - 1]
      case Snapshot(asset, bids, asks, lastTrade, ts) => {
        LevelsArePositive(bids, |bids|);
        LevelsArePositive(asks, |asks|);
        RefreshedIsSound(Book(LevelsOf(bids, |bids|), LevelsOf(asks, |asks|), None, None, lastTrade, ts));
      }
      case Changes(changes, ts) => { ChangesKeepSound(Run(assets, messages, n - 1), changes, |changes|, ts); }
    }
  }

  // When the cached prices are the true ones.

  ghost predicate Exact(b: Book) { b.bestBid == Best(b.bids, true) && b.bestAsk == Best(b.asks, false) }

  predicate Better(highest: bool, p: real, q: real) { if highest then p > q else p < q }

  /** The best price after an edit, from the best price before it; only the removal of the best looks at the levels. */
  ghost function NextBest(levels: Levels, highest: bool, best: Option<real>, price: real, size: real): Option<real> {
    if size > 0.0 then Some(if best.None? || Better(highest, price, best.value) then price else best.value)
    else if best == Some(price) then Best(levels - {price}, highest)
    else best
  }

  lemma NextBestIsBest(levels: Levels, highest: bool, best: Option<real>, price: real, size: real)
    requires AllPositive(levels) && IsBest(levels, highest, best)
    ensures Best(Edited(levels, price, size), highest) == NextBest(levels, highest, best, price, size)
  {
    var after, next := Edited(levels, price, size), NextBest(levels, highest, best, price, size);
    assert IsBest(after, highest, next);
    BestIsUnique(after, highest, Best(after, highest), next);
  }

  /** The guard: an edit leaves a known best price in place unless it removes it or offers something better. */
  predicate Keeps(highest: bool, best: real, price: real, size: real) {
    if size <= 0.0 then price != best else !Better(highest, price, best)
  }

  lemma KeptExactly(levels: Levels, highest: bool, best: real, price: real, size: real)
    requires AllPositive(levels) && IsBest(levels, highest, Some(best))
    ensures Best(Edited(levels, price, size), highest) == Some(best) <==> Keeps(highest, best, price, size)
  {
    NextBestIsBest(levels, highest, Some(best), price, size);
  }

  predicate EditsBids(c: Change)
    requires c.Change?
  {
    Positive(c.price) && c.side == "BUY"
  }

  predicate EditsAsks(c: Change)
    requires c.Change?
  {
    Positive(c.price) && c.side != "BUY"
  }

  /** The best bid and ask after a change, from the book before it. */
  ghost function BidAfter(b: Book, c: Change): Option<real>
    requires c.Change?
  {
    if EditsBids(c) then NextBest(b.bids, true, b.bestBid, c.price.value, SizeOf(c.size)) else b.bestBid
  }

  ghost function AskAfter(b: Book, c: Change): Option<real>
    requires c.Change?
  {
    if EditsAsks(c) then NextBest(b.asks, false, b.bestAsk, c.price.value, SizeOf(c.size)) else b.bestAsk
  }

  lemma BestsAfter(b: Book, c: Change)
    requires c.Change? && Sound(b) && Exact(b)
    ensures var l := WithLevel(b, c); Best(l.bids, true) == BidAfter(b, c) && Best(l.asks, false) == AskAfter(b, c)
  {
    if EditsBids(c) { NextBestIsBest(b.bids, true, b.bestBid, c.price.value, SizeOf(c.size)); }
    if EditsAsks(c) { NextBestIsBest(b.asks, false, b.bestAsk, c.price.value, SizeOf(c.size)); }
  }

  /**
   An exact book stays exact exactly when a price is still missing, so that both are found anew, or when on
   each side the price that wins, carried or cached, is the one the edit leaves best.
   */
  lemma ExactAfterChange(b: Book, c: Change, ts: int)
    requires c.Change? && Sound(b) && Exact(b)
    ensures var bid, ask := Preferred(c.bestBid, b.bestBid), Preferred(c.bestAsk, b.bestAsk);
            Exact(Changed(b, c, ts)) <==>
              bid.None? || ask.None? || (bid == BidAfter(b, c) && ask == AskAfter(b, c))
  {
    BestsAfter(b, c);
  }

  /** With both prices known and none carried, exactly the edits that remove or beat a cached price break it. */
  lemma ExactWithoutPrices(b: Book, c: Change, ts: int)
    requires c.Change? && Sound(b) && Exact(b) && b.bestBid.Some? && b.bestAsk.Some?
    requires !Positive(c.bestBid) && !Positive(c.bestAsk)
    ensures Exact(Changed(b, c, ts)) <==>
            && (EditsBids(c) ==> Keeps(true, b.bestBid.value, c.price.value, SizeOf(c.size)))
            && (EditsAsks(c) ==> Keeps(false, b.bestAsk.value, c.price.value, SizeOf(c.size)))
  {
    ExactAfterChange(b, c, ts);
    SideKept(b, c);
  }

  lemma SideKept(b: Book, c: Change)
    requires c.Change? && Sound(b) && Exact(b) && b.bestBid.Some? && b.bestAsk.Some?
    ensures b.bestBid == BidAfter(b, c) <==> (EditsBids(c) ==> Keeps(true, b.bestBid.value, c.price.value, SizeOf(c.size)))
    ensures b.bestAsk == AskAfter(b, c) <==> (EditsAsks(c) ==> Keeps(false, b.bestAsk.value, c.price.value, SizeOf(c.size)))
  {
    BestsAfter(b, c);
    if EditsBids(c) { KeptExactly(b.bids, true, b.bestBid.value, c.price.value, SizeOf(c.size)); }
    if EditsAsks(c) { KeptExactly(b.asks, false, b.bestAsk.value, c.price.value, SizeOf(c.size)); }
  }

  /** With only the best ask carried, it must be right and the edit must keep the cached bid. */
  lemma ExactWithAskOnly(b: Book, c: Change, ts: int)
    requires c.Change? && Sound(b) && Exact(b) && b.bestBid.Some? && b.bestAsk.Some?
    requires !Positive(c.bestBid) && Positive(c.bestAsk)
    ensures Exact(Changed(b, c, ts)) <==>
            && (EditsBids(c) ==> Keeps(true, b.bestBid.value, c.price.value, SizeOf(c.size)))
            && c.bestAsk == AskAfter(b, c)
  {
    ExactAfterChange(b, c, ts);
    SideKept(b, c);
  }

  /** With only the best bid carried, it must be right and the edit must keep the cached ask. */
  lemma ExactWithBidOnly(b: Book, c: Change, ts: int)
    requires c.Change? && Sound(b) && Exact(b) && b.bestBid.Some? && b.bestAsk.Some?
    requires Positive(c.bestBid) && !Positive(c.bestAsk)
    ensures Exact(Changed(b, c, ts)) <==>
            && (EditsAsks(c) ==> Keeps(false, b.bestAsk.value, c.price.value, SizeOf(c.size)))
            && c.bestBid == BidAfter(b, c)
  {
    ExactAfterChange(b, c, ts);
    SideKept(b, c);
  }

  /** The change carries the best prices as they are after it, and both sides have some. */
  ghost predicate Truthful(b: Book, c: Change) {
    c.Change? ==> var l := WithLevel(b, c);
      c.bestBid.Some? && c.bestAsk.Some? && IsBest(l.bids, true, c.bestBid) && IsBest(l.asks, false, c.bestAsk)
  }

  ghost predicate AllTruthful(books: Books, changes: seq<Change>, ts: int, asset: string) {
    forall i | 0 <= i < |changes| && changes[i].Change? && changes[i].asset == asset ::
      var before := ChangeAll(books, changes, i, ts); asset in before ==> Truthful(before[asset], changes[i])
  }

  /** Every change of the run about this asset is truthful at the moment it is applied. */
  ghost predicate TruthfulRun(assets: set<string>, messages: seq<Message>, n: nat, asset: string) {
    forall i | 0 <= i < n <= |messages| && messages[i].Changes? ::
      AllTruthful(Run(assets, messages, i), messages[i].changes, messages[i].at, asset)
  }

  lemma ChangeKeepsExact(b: Book, c: Change, ts: int)
    requires c.Change? && Sound(b) && Truthful(b, c)
    ensures Exact(Changed(b, c, ts))
  {
    var l := WithLevel(b, c);
    assert AllPositive(l.bids) && AllPositive(l.asks);
    BestIsUnique(l.bids, true, c.bestBid, Best(l.bids, true));
    BestIsUnique(l.asks, false, c.bestAsk, Best(l.asks, false));
  }

  lemma {:induction false} ChangesKeepExact(books: Books, changes: seq<Change>, n: nat, ts: int, asset: string)
    requires n <= |changes| && AllSound(books) && AllTruthful(books, changes, ts, asset)
    requires asset in books ==> Exact(books[asset])
    ensures var after := ChangeAll(books, changes, n, ts);
            asset in after ==> Exact(after[asset])
  {
    if n > 0 {
      ChangesKeepExact(books, changes, n - 1, ts, asset);
      ChangesKeepSound(books, changes, n - 1, ts);
      var before, c := ChangeAll(books, changes, n - 1, ts), changes[n - 1];
      if c.Change? && c.asset == asset && asset in before { ChangeKeepsExact(before[asset], c, ts); }
    }
  }

  /** In a run whose changes to an asset are all truthful, its cached prices are the best bid and the best ask. */
  lemma {:induction false} TruthfulRunIsExact(assets: set<string>, messages: seq<Message>, n: nat, asset: string)
    requires n <= |messages| && TruthfulRun(assets, messages, n, asset)
    ensures var books := Run(assets, messages, n);
            asset in books ==> Exact(books[asset])
  {
    if n > 0 {
      TruthfulRunIsExact(assets, messages, n - 1, asset);
      RunKeepsSound(assets, messages, n - 1);
      var before := Run(assets, messages, n - 1);
      match messages[n - 1]
      case Snapshot(_, _, _, _, _) =>
      case Changes(changes, ts) => { ChangesKeepExact(before, changes, |changes|, ts, asset); }
    }
  }

  /** The last level leaves, the change says so with a zero, and the cached price stays where it was. */
  lemma EmptiedSideKeepsItsPrice(ts: int)
    ensures var b := Book(map[0.4 := 5.0], map[0.6 := 5.0], Some(0.4), Some(0.6), None, 0);
            var c := Change("up", Some(0.4), Some(0.0), "BUY", Some(0.0), Some(0.6));
            && Sound(b) && Exact(b)
            && Changed(b, c, ts).bids == map[] && Changed(b, c, ts).bestBid == Some(0.4)
            && !Exact(Changed(b, c, ts))
  {
    var b := Book(map[0.4 := 5.0], map[0.6 := 5.0], Some(0.4), Some(0.6), None, 0);
    var c := Change("up", Some(0.4), Some(0.0), "BUY", Some(0.0), Some(0.6));
    BestIsUnique(b.bids, true, b.bestBid, Best(b.bids, true));
    BestIsUnique(b.asks, false, b.bestAsk, Best(b.asks, false));
    ExactWithAskOnly(b, c, ts);
  }
}
