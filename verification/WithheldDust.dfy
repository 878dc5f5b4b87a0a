/** Orders below the minimum of their market: no match can involve them, and still a node may not keep them back. */
module WithheldDust {
  import opened Basics
  import opened Sorting
  import opened Sums
  import opened Engine
  import opened EngineFacts
  import opened RunMatching
  import opened RunFacts
  import opened Tradables
  import opened Counterparties
  import opened Withholding
  import O = Orchestrator
  import N = NodePath

  // ----- pools of which the top of both books is known ------------------------------------------------

  lemma BookIs(pool: seq<RevealedOrder>, symbol: Symbol, side: nat, le: (RevealedOrder, RevealedOrder) -> bool, book: Book)
    requires TotalPreorder(le) && Sorted(le, book) && NoTies(le, book)
    requires forall r :: multiset(book)[r] == if r.order.symbol == symbol && r.order.side == side then multiset(pool)[r] else 0
    ensures Sort(le, BookEntries(pool, symbol, side)) == book
  {
    var entries := BookEntries(pool, symbol, side);
    forall r ensures multiset(entries)[r] == multiset(book)[r] { BookEntriesCount(pool, symbol, side, r); }
    SortSorted(le, entries);
    SortedUnique(le, book, Sort(le, entries));
  }

  /** Orders of one side and symbol, the better prices first: buys fall, sells rise. */
  ghost predicate FallingBids(book: Book, symbol: Symbol) {
    && (forall k :: 0 <= k < |book| ==> book[k].order.symbol == symbol && book[k].order.side == BUY)
    && (forall i, j :: 0 <= i < j < |book| ==> book[i].order.price > book[j].order.price)
  }

  ghost predicate RisingOffers(book: Book, symbol: Symbol) {
    && (forall k :: 0 <= k < |book| ==> book[k].order.symbol == symbol && book[k].order.side == SELL)
    && (forall i, j :: 0 <= i < j < |book| ==> book[i].order.price < book[j].order.price)
  }

  /** The other orders bid less than `low` and offer above `high`. */
  ghost predicate OutOfRange(rest: seq<RevealedOrder>, symbol: Symbol, low: nat, high: nat) {
    forall r :: r in rest && r.order.symbol == symbol ==>
      (r.order.side == BUY ==> r.order.price < low) && (r.order.side == SELL ==> r.order.price > high)
  }

  lemma RestBooks(rest: seq<RevealedOrder>, symbol: Symbol, low: nat, high: nat)
    requires OutOfRange(rest, symbol, low, high)
    ensures forall k :: 0 <= k < |Buys(rest, symbol)| ==> Buys(rest, symbol)[k].order.price < low
    ensures forall k :: 0 <= k < |Sells(rest, symbol)| ==> Sells(rest, symbol)[k].order.price > high
  {
    forall k | 0 <= k < |Buys(rest, symbol)| ensures Buys(rest, symbol)[k].order.price < low { BookMember(rest, symbol, k); }
    forall k | 0 <= k < |Sells(rest, symbol)| ensures Sells(rest, symbol)[k].order.price > high { BookMember(rest, symbol, k); }
  }

  lemma RestSorted(rest: seq<RevealedOrder>, symbol: Symbol)
    requires HashesIdentify(rest)
    ensures TotalPreorder(BuyBefore) && Sorted(BuyBefore, Buys(rest, symbol)) && NoTies(BuyBefore, Buys(rest, symbol))
    ensures TotalPreorder(SellBefore) && Sorted(SellBefore, Sells(rest, symbol)) && NoTies(SellBefore, Sells(rest, symbol))
  {
    BookOrders();
    BooksSorted(rest, symbol);
    BookEntriesIdentify(rest, symbol, BUY);
    BookEntriesIdentify(rest, symbol, SELL);
    NoTiesSameElements(BuyBefore, BookEntries(rest, symbol, BUY), Buys(rest, symbol));
    NoTiesSameElements(SellBefore, BookEntries(rest, symbol, SELL), Sells(rest, symbol));
  }

  /** Ranked orders before a sorted book of worse prices. */
  lemma BidsBefore(bids: Book, rest: Book, symbol: Symbol, low: nat)
    requires FallingBids(bids, symbol) && (forall k :: 0 <= k < |bids| ==> bids[k].order.price >= low)
    requires Sorted(BuyBefore, rest) && NoTies(BuyBefore, rest) && (forall k :: 0 <= k < |rest| ==> rest[k].order.price < low)
    ensures Sorted(BuyBefore, bids + rest) && NoTies(BuyBefore, bids + rest)
  {
  }

  lemma OffersBefore(offers: Book, rest: Book, symbol: Symbol, high: nat)
    requires RisingOffers(offers, symbol) && (forall k :: 0 <= k < |offers| ==> offers[k].order.price <= high)
    requires Sorted(SellBefore, rest) && NoTies(SellBefore, rest) && (forall k :: 0 <= k < |rest| ==> rest[k].order.price > high)
    ensures Sorted(SellBefore, offers + rest) && NoTies(SellBefore, offers + rest)
  {
  }

  /** A pool of these bids and offers and a rest out of their range. */
  ghost predicate TopOf(pool: seq<RevealedOrder>, bids: Book, offers: Book, rest: seq<RevealedOrder>, symbol: Symbol, low: nat, high: nat) {
    && FallingBids(bids, symbol) && (forall k :: 0 <= k < |bids| ==> bids[k].order.price >= low)
    && RisingOffers(offers, symbol) && (forall k :: 0 <= k < |offers| ==> offers[k].order.price <= high)
    && OutOfRange(rest, symbol, low, high) && HashesIdentify(rest)
    && multiset(pool) == multiset(bids) + multiset(offers) + multiset(rest)
  }

  lemma TopCounts(
    pool: seq<RevealedOrder>, bids: Book, offers: Book, rest: seq<RevealedOrder>, symbol: Symbol, low: nat, high: nat, r: RevealedOrder)
    requires TopOf(pool, bids, offers, rest, symbol, low, high)
    ensures multiset(bids + Buys(rest, symbol))[r] == if r.order.symbol == symbol && r.order.side == BUY then multiset(pool)[r] else 0
    ensures multiset(offers + Sells(rest, symbol))[r] == if r.order.symbol == symbol && r.order.side == SELL then multiset(pool)[r] else 0
  {
    BookEntriesCount(rest, symbol, BUY, r);
    BookEntriesCount(rest, symbol, SELL, r);
    if r in multiset(bids) { assert r in bids; }
    if r in multiset(offers) { assert r in offers; }
  }

  /** Such a pool is sorted into them, before the books of the rest. */
  lemma BooksAre(pool: seq<RevealedOrder>, bids: Book, offers: Book, rest: seq<RevealedOrder>, symbol: Symbol, low: nat, high: nat)
    requires TopOf(pool, bids, offers, rest, symbol, low, high)
    ensures Buys(pool, symbol) == bids + Buys(rest, symbol) && Sells(pool, symbol) == offers + Sells(rest, symbol)
  {
    RestSorted(rest, symbol);
    RestBooks(rest, symbol, low, high);
    BidsBefore(bids, Buys(rest, symbol), symbol, low);
    OffersBefore(offers, Sells(rest, symbol), symbol, high);
    forall r
      ensures multiset(bids + Buys(rest, symbol))[r] == if r.order.symbol == symbol && r.order.side == BUY then multiset(pool)[r] else 0
      ensures multiset(offers + Sells(rest, symbol))[r] == if r.order.symbol == symbol && r.order.side == SELL then multiset(pool)[r] else 0
    {
      TopCounts(pool, bids, offers, rest, symbol, low, high, r);
    }
    BookIs(pool, symbol, BUY, BuyBefore, bids + Buys(rest, symbol));
    BookIs(pool, symbol, SELL, SellBefore, offers + Sells(rest, symbol));
  }

  /** What a walk sees of the books of such a pool. */
  lemma TopBooks(pool: seq<RevealedOrder>, bids: Book, offers: Book, rest: seq<RevealedOrder>, symbol: Symbol, low: nat, high: nat)
    requires TopOf(pool, bids, offers, rest, symbol, low, high)
    ensures var bs, os := Buys(pool, symbol), Sells(pool, symbol);
      && |bs| >= |bids| && (forall k :: 0 <= k < |bids| ==> bs[k] == bids[k])
      && (forall k :: |bids| <= k < |bs| ==> bs[k].order.price < low)
      && |os| >= |offers| && (forall k :: 0 <= k < |offers| ==> os[k] == offers[k])
      && (forall k :: |offers| <= k < |os| ==> os[k].order.price > high)
  {
    BooksAre(pool, bids, offers, rest, symbol, low, high);
    RestBooks(rest, symbol, low, high);
  }

  /** An order trades in one of these fills. */
  ghost predicate InFills(bids: Book, offers: Book, fills: seq<Fill>, w: RevealedOrder)
    requires FillsFit(bids, offers, fills)
  {
    exists k :: 0 <= k < |fills| && (bids[fills[k].b] == w || offers[fills[k].s] == w)
  }

  lemma InvolvedInFills(batch: Batch, symbol: Symbol, bids: Book, offers: Book, fills: seq<Fill>, w: RevealedOrder)
    requires FillsFit(bids, offers, fills)
    ensures Involved(MatchesOf(batch.id, batch.poolId, symbol, bids, offers, fills), w) <==> InFills(bids, offers, fills, w)
  {
    var ms := MatchesOf(batch.id, batch.poolId, symbol, bids, offers, fills);
    forall k | 0 <= k < |fills| ensures ms[k].buyer == bids[fills[k].b] && ms[k].seller == offers[fills[k].s] {}
  }

  /** Whether `w` trades in a pool is whether it is in a fill of the books of its symbol. */
  lemma PoolInvolves(batch: Batch, pool: seq<RevealedOrder>, bids: Book, offers: Book, w: RevealedOrder)
    requires w.order.symbol in MarketMap(batch.markets)
    requires bids == Buys(pool, w.order.symbol) && offers == Sells(pool, w.order.symbol)
    ensures var fills := Fills(bids, offers, MarketMap(batch.markets)[w.order.symbol]);
      && FillsFit(bids, offers, fills)
      && (Involved(Matches(MatchingInput(batch.id, batch.poolId, pool, batch.markets)), w) <==> InFills(bids, offers, fills, w))
  {
    var symbol := w.order.symbol;
    var minQuantity := MarketMap(batch.markets)[symbol];
    WalkFits(bids, offers, minQuantity, Start(bids, offers));
    InvolvedExactly(MatchingInput(batch.id, batch.poolId, pool, batch.markets), w);
    InvolvedInFills(batch, symbol, bids, offers, Fills(bids, offers, minQuantity), w);
  }

  // ----- what the walk does at the top --------------------------------------------------------------------

  /** A bid and an offer of one node around the price of the buy `d`, another offer beside the bid, all other prices out of
      range. */
  ghost predicate BuyTrapTop(b: RevealedOrder, d: RevealedOrder, s: RevealedOrder, t: RevealedOrder) {
    && b.order.nftId == s.order.nftId && d.order.nftId != s.order.nftId && t.order.nftId != b.order.nftId
    && s.order.price == d.order.price && b.order.price == t.order.price == d.order.price + 1
    && b.order.quantity == s.order.quantity == t.order.quantity == MAX
  }

  /** With `d` the cheaper offer looks wanted: the bid of the same node gives way, and nothing trades. */
  lemma WithDustBuy(
    bids: Book, offers: Book, b: RevealedOrder, d: RevealedOrder, s: RevealedOrder, t: RevealedOrder, minQuantity: U64)
    requires |bids| >= 2 && bids[0] == b && bids[1] == d && |offers| >= 2 && offers[0] == s && offers[1] == t
    requires BuyTrapTop(b, d, s, t) && d.order.quantity < minQuantity
    requires forall k :: 2 <= k < |bids| ==> bids[k].order.price < d.order.price
    ensures Fills(bids, offers, minQuantity) == []
  {
    var c0 := Start(bids, offers);
    var c1 := SkipBuy(bids, c0);
    assert SellHasAlternative(offers[0], bids, 0) by { assert Crosses(bids[1], s) && !SameNft(bids[1], s); }
    assert Decide(bids, offers, minQuantity, c0) == DropBuy;
    assert Decide(bids, offers, minQuantity, c1) == DropBuy;
    assert Decide(bids, offers, minQuantity, SkipBuy(bids, c1)) == Stop;
    WalkSkips(bids, offers, minQuantity, c0);
    WalkSkips(bids, offers, minQuantity, c1);
  }

  /** Without it the offer gives way, and the bid trades. */
  lemma WithoutDustBuy(
    bids: Book, offers: Book, b: RevealedOrder, d: RevealedOrder, s: RevealedOrder, t: RevealedOrder, minQuantity: U64)
    requires |bids| >= 1 && bids[0] == b && |offers| >= 2 && offers[0] == s && offers[1] == t && BuyTrapTop(b, d, s, t)
    requires forall k :: 1 <= k < |bids| ==> bids[k].order.price < d.order.price
    ensures var fills := Fills(bids, offers, minQuantity); fills != [] && fills[0] == Fill(0, 1, MAX)
  {
    var c0 := Start(bids, offers);
    assert BuyHasAlternative(bids[0], offers, 0) by { assert Crosses(b, offers[1]) && !SameNft(b, offers[1]); }
    assert !SellHasAlternative(offers[0], bids, 0);
    assert Decide(bids, offers, minQuantity, c0) == DropSell;
    WalkSkips(bids, offers, minQuantity, c0);
    assert Decide(bids, offers, minQuantity, SkipSell(offers, c0)) == TradeTop;
  }

  /** A bid of one unit, a bid and an empty offer of one node, a bid and an offer of others, above the price of a sell. */
  ghost predicate SellTrapTop(x: RevealedOrder, y: RevealedOrder, z: RevealedOrder, s: RevealedOrder, t: RevealedOrder) {
    && x.order.quantity == 1 && y.order.quantity == z.order.quantity == t.order.quantity == MAX && s.order.quantity == 0
    && y.order.nftId == s.order.nftId && t.order.nftId != y.order.nftId
    && x.order.nftId == z.order.nftId && z.order.nftId != s.order.nftId && z.order.nftId != t.order.nftId
    && x.order.price > y.order.price > z.order.price >= t.order.price > s.order.price
  }

  /** Without the sell the bid of one unit takes the empty offer out of the way, and the next bid trades. */
  lemma WithoutDustSell(
    bids: Book, offers: Book, x: RevealedOrder, y: RevealedOrder, z: RevealedOrder, s: RevealedOrder, t: RevealedOrder,
    minQuantity: U64)
    requires |bids| >= 3 && bids[0] == x && bids[1] == y && bids[2] == z && |offers| >= 2 && offers[0] == s && offers[1] == t
    requires SellTrapTop(x, y, z, s, t) && minQuantity > 1
    ensures var fills := Fills(bids, offers, minQuantity); fills != [] && fills[0] == Fill(1, 1, MAX)
  {
    var c0 := Start(bids, offers);
    var c1 := SkipSell(offers, c0);
    var c2 := SkipBuy(bids, c1);
    assert Decide(bids, offers, minQuantity, c0) == DropSell;
    assert Decide(bids, offers, minQuantity, c1) == DropBuy;
    assert Decide(bids, offers, minQuantity, c2) == TradeTop;
    WalkSkips(bids, offers, minQuantity, c0);
    WalkSkips(bids, offers, minQuantity, c1);
  }

  /** With it that bid is gone first, the next one meets the offer of its own node and gives way, and the last one trades. */
  lemma WithDustSell(
    bids: Book, offers: Book, x: RevealedOrder, y: RevealedOrder, z: RevealedOrder, d: RevealedOrder, s: RevealedOrder,
    t: RevealedOrder, minQuantity: U64)
    requires |bids| >= 3 && bids[0] == x && bids[1] == y && bids[2] == z
    requires |offers| >= 3 && offers[0] == d && offers[1] == s && offers[2] == t
    requires SellTrapTop(x, y, z, s, t) && d.order.price < s.order.price
    requires d.order.nftId != x.order.nftId && d.order.nftId != y.order.nftId && 1 <= d.order.quantity < minQuantity
    requires forall k, l :: 3 <= k < |bids| && 3 <= l < |offers| ==> bids[k].order.price < offers[l].order.price
    ensures Fills(bids, offers, minQuantity) == [Fill(2, 2, MAX)]
  {
    var c0 := Start(bids, offers);
    var c1 := SkipBuy(bids, c0);
    var c2 := SkipSell(offers, c1);
    var c3 := SkipBuy(bids, c2);
    var c4 := SkipSell(offers, c3);
    assert Decide(bids, offers, minQuantity, c0) == DropBuy;
    assert Decide(bids, offers, minQuantity, c1) == DropSell;
    assert SellHasAlternative(offers[1], bids, 1) by { assert Crosses(bids[2], s) && !SameNft(bids[2], s); }
    assert Decide(bids, offers, minQuantity, c2) == DropBuy;
    assert Decide(bids, offers, minQuantity, c3) == DropSell;
    assert Decide(bids, offers, minQuantity, c4) == TradeTop;
    WalkSkips(bids, offers, minQuantity, c0);
    WalkSkips(bids, offers, minQuantity, c1);
    WalkSkips(bids, offers, minQuantity, c2);
    WalkSkips(bids, offers, minQuantity, c3);
    assert Decide(bids, offers, minQuantity, Trade(bids, offers, c4)) == Stop;
    assert Walk(bids, offers, minQuantity, Trade(bids, offers, c4)) == [];
    assert [Fill(2, 2, MAX)] + [] == [Fill(2, 2, MAX)];
  }

  /** An order that could trade but for its quantity. */
  predicate Dust(r: RevealedOrder, markets: seq<MarketConfig>) {
    Tradable(r, markets) && r.order.quantity < MarketMap(markets)[r.order.symbol]
  }

  // ----- traps around an order below the minimum ------------------------------------------------------------

  function Trap(nft: U64, d: Order, side: nat, raise: nat, quantity: U64): Order
    requires d.price + raise < TWO64
  {
    Order(nft, d.symbol, side, d.price + raise, quantity, d.batchId, [])
  }

  /** An order for which others could set a trap: a buy below the highest price, or a sell of one unit or more four below it. */
  predicate Trappable(d: Order) {
    if d.side == BUY then d.price < MAX else d.quantity >= 1 && d.price <= MAX - 4
  }

  /** How far above the price of the order its trap reaches. */
  function Reach(d: Order): nat {
    if d.side == BUY then d.price + 1 else d.price + 4
  }

  function Traps(own: U64, d: Order): seq<Order>
    requires Trappable(d)
  {
    var a, b, c := Stranger(own, 0), Stranger(own, 1), Stranger(own, 2);
    if d.side == BUY then [Trap(a, d, BUY, 1, MAX), Trap(a, d, SELL, 0, MAX), Trap(b, d, SELL, 1, MAX)]
    else [Trap(a, d, BUY, 4, 1), Trap(b, d, BUY, 3, MAX), Trap(a, d, BUY, 2, MAX), Trap(b, d, SELL, 1, 0), Trap(c, d, SELL, 2, MAX)]
  }

  ghost predicate IsTrap(own: U64, d: Order, rs: seq<RevealedOrder>) {
    Trappable(d) && |rs| == |Traps(own, d)| && forall k :: 0 <= k < |rs| ==> rs[k].order == Traps(own, d)[k]
  }

  /** The order of the trap that notices the difference. */
  function Witness(d: Order, rs: seq<RevealedOrder>): RevealedOrder
    requires |rs| >= 3
  {
    if d.side == BUY then rs[0] else rs[1]
  }

  lemma TrapsDistinct(own: U64, d: Order, sealer: N.Sealer)
    requires Trappable(d) && CollisionFree(sealer.codec.hash)
    ensures var rs := N.RevealsOf(sealer, Traps(own, d));
      IsTrap(own, d, rs) && DistinctHashes(rs) && forall r :: r in rs ==> r.order.nftId != own
  {
    RevealsAre(sealer, Traps(own, d));
  }

  lemma TrapPerNft(own: U64, d: Order, rs: seq<RevealedOrder>)
    requires IsTrap(own, d, rs)
    ensures PerNft(rs, 2)
  {
    forall nft: U64 ensures Total(rs, Mine(nft)) <= 2 {
      if d.side == BUY {
        assert rs == [rs[0], rs[1]] + [rs[2]];
        TotalPair(rs[0], rs[1], Mine(nft));
        TotalSnoc([rs[0], rs[1]], rs[2], Mine(nft));
      } else {
        assert rs == (([rs[0], rs[1]] + [rs[2]]) + [rs[3]]) + [rs[4]];
        TotalPair(rs[0], rs[1], Mine(nft));
        TotalSnoc([rs[0], rs[1]], rs[2], Mine(nft));
        TotalSnoc([rs[0], rs[1]] + [rs[2]], rs[3], Mine(nft));
        TotalSnoc(([rs[0], rs[1]] + [rs[2]]) + [rs[3]], rs[4], Mine(nft));
      }
    }
  }

  // ----- a trap in a pool -------------------------------------------------------------------------------------

  /** A pool with the trap and a rest that its prices do not reach. */
  ghost predicate TrapPool(own: U64, d: RevealedOrder, rs: seq<RevealedOrder>, rest: seq<RevealedOrder>) {
    && IsTrap(own, d.order, rs) && d.order.nftId == own && (d.order.side == BUY || d.order.side == SELL)
    && OutOfRange(rest, d.order.symbol, d.order.price, Reach(d.order)) && HashesIdentify(rest)
  }

  lemma BuyTrapIs(own: U64, d: RevealedOrder, rs: seq<RevealedOrder>)
    requires IsTrap(own, d.order, rs) && d.order.nftId == own && d.order.side == BUY
    ensures |rs| == 3 && BuyTrapTop(rs[0], d, rs[1], rs[2])
    ensures forall k :: 0 <= k < 3 ==> rs[k].order.symbol == d.order.symbol && rs[k].order.side == if k == 0 then BUY else SELL
  {
  }

  /** An order on one side of a book. */
  predicate OnSide(r: RevealedOrder, symbol: Symbol, side: nat) {
    r.order.symbol == symbol && r.order.side == side
  }

  lemma BidsOf(x: RevealedOrder, y: RevealedOrder, z: RevealedOrder, symbol: Symbol, low: nat)
    requires OnSide(x, symbol, BUY) && OnSide(y, symbol, BUY) && x.order.price > y.order.price >= low
    ensures FallingBids([x], symbol) && FallingBids([x, y], symbol)
    ensures OnSide(z, symbol, BUY) && y.order.price > z.order.price >= low ==>
      FallingBids([x, y, z], symbol) && forall k :: 0 <= k < 3 ==> [x, y, z][k].order.price >= low
  {
  }

  lemma OffersOf(x: RevealedOrder, y: RevealedOrder, z: RevealedOrder, symbol: Symbol, high: nat)
    requires OnSide(x, symbol, SELL) && OnSide(y, symbol, SELL) && x.order.price < y.order.price <= high
    ensures RisingOffers([x, y], symbol) && forall k :: 0 <= k < 2 ==> [x, y][k].order.price <= high
    ensures OnSide(z, symbol, SELL) && y.order.price < z.order.price <= high ==>
      RisingOffers([x, y, z], symbol) && forall k :: 0 <= k < 3 ==> [x, y, z][k].order.price <= high
  {
  }

  lemma BuyTops(own: U64, d: RevealedOrder, rs: seq<RevealedOrder>, rest: seq<RevealedOrder>, pool: seq<RevealedOrder>, present: bool)
    requires TrapPool(own, d, rs, rest) && d.order.side == BUY && |rs| == 3
    requires multiset(pool) == (if present then multiset{d} else multiset{}) + multiset(rs) + multiset(rest)
    ensures TopOf(pool, if present then [rs[0], d] else [rs[0]], [rs[1], rs[2]], rest, d.order.symbol, d.order.price, Reach(d.order))
  {
    BuyTrapIs(own, d, rs);
    BidsOf(rs[0], d, d, d.order.symbol, d.order.price);
    OffersOf(rs[1], rs[2], d, d.order.symbol, Reach(d.order));
    BuyParts(d, rs);
  }

  lemma BuyParts(d: RevealedOrder, rs: seq<RevealedOrder>)
    requires |rs| == 3
    ensures multiset(rs) == multiset([rs[0]]) + multiset([rs[1], rs[2]])
    ensures multiset([rs[0], d]) == multiset{d} + multiset([rs[0]])
  {
    assert rs == [rs[0]] + [rs[1], rs[2]] && [rs[0], d] == [rs[0]] + [d];
  }

  lemma BuyTrapWithout(batch: Batch, own: U64, d: RevealedOrder, rs: seq<RevealedOrder>, rest: seq<RevealedOrder>, pool: seq<RevealedOrder>)
    requires TrapPool(own, d, rs, rest) && d.order.side == BUY && d.order.symbol in MarketMap(batch.markets) && |rs| == 3
    requires multiset(pool) == multiset(rs) + multiset(rest)
    ensures Involved(Matches(MatchingInput(batch.id, batch.poolId, pool, batch.markets)), rs[0])
  {
    var symbol := d.order.symbol;
    BuyTrapIs(own, d, rs);
    BuyTops(own, d, rs, rest, pool, false);
    TopBooks(pool, [rs[0]], [rs[1], rs[2]], rest, symbol, d.order.price, Reach(d.order));
    WithoutDustBuy(Buys(pool, symbol), Sells(pool, symbol), rs[0], d, rs[1], rs[2], MarketMap(batch.markets)[symbol]);
    FirstInvolved(batch, pool, symbol, Fill(0, 1, MAX), rs[0]);
  }

  lemma BuyTrapWith(batch: Batch, own: U64, d: RevealedOrder, rs: seq<RevealedOrder>, rest: seq<RevealedOrder>, pool: seq<RevealedOrder>)
    requires TrapPool(own, d, rs, rest) && d.order.side == BUY && Dust(d, batch.markets) && |rs| == 3
    requires multiset(pool) == multiset{d} + multiset(rs) + multiset(rest)
    ensures !Involved(Matches(MatchingInput(batch.id, batch.poolId, pool, batch.markets)), rs[0])
  {
    var symbol := d.order.symbol;
    BuyTrapIs(own, d, rs);
    BuyTops(own, d, rs, rest, pool, true);
    TopBooks(pool, [rs[0], d], [rs[1], rs[2]], rest, symbol, d.order.price, Reach(d.order));
    WithDustBuy(Buys(pool, symbol), Sells(pool, symbol), rs[0], d, rs[1], rs[2], MarketMap(batch.markets)[symbol]);
    NoneInvolved(batch, pool, symbol, [], rs[0]);
  }

  /** An order in the first fill is in a match, and one in no fill is in none. */
  lemma FirstInvolved(batch: Batch, pool: seq<RevealedOrder>, symbol: Symbol, first: Fill, w: RevealedOrder)
    requires w.order.symbol == symbol && symbol in MarketMap(batch.markets)
    requires var fills := Fills(Buys(pool, symbol), Sells(pool, symbol), MarketMap(batch.markets)[symbol]);
      fills != [] && fills[0] == first && first.b < |Buys(pool, symbol)| && Buys(pool, symbol)[first.b] == w
    ensures Involved(Matches(MatchingInput(batch.id, batch.poolId, pool, batch.markets)), w)
  {
    PoolInvolves(batch, pool, Buys(pool, symbol), Sells(pool, symbol), w);
  }

  lemma NoneInvolved(batch: Batch, pool: seq<RevealedOrder>, symbol: Symbol, fills: seq<Fill>, w: RevealedOrder)
    requires w.order.symbol == symbol && symbol in MarketMap(batch.markets)
    requires fills == Fills(Buys(pool, symbol), Sells(pool, symbol), MarketMap(batch.markets)[symbol])
    requires forall k :: 0 <= k < |fills| ==>
      && fills[k].b < |Buys(pool, symbol)| && Buys(pool, symbol)[fills[k].b] != w
      && fills[k].s < |Sells(pool, symbol)| && Sells(pool, symbol)[fills[k].s] != w
    ensures !Involved(Matches(MatchingInput(batch.id, batch.poolId, pool, batch.markets)), w)
  {
    PoolInvolves(batch, pool, Buys(pool, symbol), Sells(pool, symbol), w);
  }

  lemma SellTrapIs(own: U64, d: RevealedOrder, rs: seq<RevealedOrder>)
    requires IsTrap(own, d.order, rs) && d.order.nftId == own && d.order.side == SELL
    ensures |rs| == 5 && SellTrapTop(rs[0], rs[1], rs[2], rs[3], rs[4])
    ensures rs[0].order.price == d.order.price + 4 && rs[3].order.price == d.order.price + 1
    ensures forall k :: 0 <= k < 5 ==>
      && rs[k].order.symbol == d.order.symbol && rs[k].order.nftId != own
      && rs[k].order.side == if k < 3 then BUY else SELL
  {
  }

  lemma SellParts(d: RevealedOrder, rs: seq<RevealedOrder>)
    requires |rs| == 5
    ensures multiset(rs) == multiset([rs[0], rs[1], rs[2]]) + multiset([rs[3], rs[4]])
    ensures multiset([d, rs[3], rs[4]]) == multiset{d} + multiset([rs[3], rs[4]])
  {
    assert rs == [rs[0], rs[1], rs[2]] + [rs[3], rs[4]] && [d, rs[3], rs[4]] == [d] + [rs[3], rs[4]];
  }

  lemma SellTopsWith(own: U64, d: RevealedOrder, rs: seq<RevealedOrder>, rest: seq<RevealedOrder>, pool: seq<RevealedOrder>)
    requires TrapPool(own, d, rs, rest) && d.order.side == SELL && |rs| == 5
    requires multiset(pool) == multiset{d} + multiset(rs) + multiset(rest)
    ensures TopOf(pool, [rs[0], rs[1], rs[2]], [d, rs[3], rs[4]], rest, d.order.symbol, d.order.price, Reach(d.order))
  {
    SellTrapIs(own, d, rs);
    SellParts(d, rs);
    BidsOf(rs[0], rs[1], rs[2], d.order.symbol, d.order.price);
    OffersOf(d, rs[3], rs[4], d.order.symbol, Reach(d.order));
  }

  lemma SellTopsWithout(own: U64, d: RevealedOrder, rs: seq<RevealedOrder>, rest: seq<RevealedOrder>, pool: seq<RevealedOrder>)
    requires TrapPool(own, d, rs, rest) && d.order.side == SELL && |rs| == 5
    requires multiset(pool) == multiset(rs) + multiset(rest)
    ensures TopOf(pool, [rs[0], rs[1], rs[2]], [rs[3], rs[4]], rest, d.order.symbol, d.order.price, Reach(d.order))
  {
    SellTrapIs(own, d, rs);
    SellParts(d, rs);
    BidsOf(rs[0], rs[1], rs[2], d.order.symbol, d.order.price);
    OffersOf(rs[3], rs[4], d, d.order.symbol, Reach(d.order));
  }

  /** What a walk sees of the books of the pool with the order in it. */
  lemma SellBooksWith(own: U64, d: RevealedOrder, rs: seq<RevealedOrder>, rest: seq<RevealedOrder>, pool: seq<RevealedOrder>)
    requires TrapPool(own, d, rs, rest) && d.order.side == SELL && |rs| == 5
    requires multiset(pool) == multiset{d} + multiset(rs) + multiset(rest)
    ensures var bs, os := Buys(pool, d.order.symbol), Sells(pool, d.order.symbol);
      && |bs| >= 3 && bs[0] == rs[0] && bs[1] == rs[1] && bs[2] == rs[2]
      && |os| >= 3 && os[0] == d && os[1] == rs[3] && os[2] == rs[4]
      && (forall k :: 3 <= k < |bs| ==> bs[k].order.price < d.order.price)
      && (forall k :: 3 <= k < |os| ==> os[k].order.price > Reach(d.order))
  {
    var bids, offers := [rs[0], rs[1], rs[2]], [d, rs[3], rs[4]];
    SellTopsWith(own, d, rs, rest, pool);
    TopBooks(pool, bids, offers, rest, d.order.symbol, d.order.price, Reach(d.order));
    assert bids[0] == rs[0] && bids[1] == rs[1] && bids[2] == rs[2];
    assert offers[0] == d && offers[1] == rs[3] && offers[2] == rs[4];
  }

  /** And with the trap alone. */
  lemma SellBooksWithout(own: U64, d: RevealedOrder, rs: seq<RevealedOrder>, rest: seq<RevealedOrder>, pool: seq<RevealedOrder>)
    requires TrapPool(own, d, rs, rest) && d.order.side == SELL && |rs| == 5
    requires multiset(pool) == multiset(rs) + multiset(rest)
    ensures var bs, os := Buys(pool, d.order.symbol), Sells(pool, d.order.symbol);
      && |bs| >= 3 && bs[0] == rs[0] && bs[1] == rs[1] && bs[2] == rs[2]
      && |os| >= 2 && os[0] == rs[3] && os[1] == rs[4]
  {
    var bids, offers := [rs[0], rs[1], rs[2]], [rs[3], rs[4]];
    SellTopsWithout(own, d, rs, rest, pool);
    TopBooks(pool, bids, offers, rest, d.order.symbol, d.order.price, Reach(d.order));
    assert bids[0] == rs[0] && bids[1] == rs[1] && bids[2] == rs[2] && offers[0] == rs[3] && offers[1] == rs[4];
  }

  lemma SellTrapWithout(batch: Batch, own: U64, d: RevealedOrder, rs: seq<RevealedOrder>, rest: seq<RevealedOrder>, pool: seq<RevealedOrder>)
    requires TrapPool(own, d, rs, rest) && d.order.side == SELL && Dust(d, batch.markets) && |rs| == 5
    requires multiset(pool) == multiset(rs) + multiset(rest)
    ensures Involved(Matches(MatchingInput(batch.id, batch.poolId, pool, batch.markets)), rs[1])
  {
    var symbol := d.order.symbol;
    SellTrapIs(own, d, rs);
    SellBooksWithout(own, d, rs, rest, pool);
    WithoutDustSell(Buys(pool, symbol), Sells(pool, symbol), rs[0], rs[1], rs[2], rs[3], rs[4], MarketMap(batch.markets)[symbol]);
    FirstInvolved(batch, pool, symbol, Fill(1, 1, MAX), rs[1]);
  }

  lemma SellTrapWith(batch: Batch, own: U64, d: RevealedOrder, rs: seq<RevealedOrder>, rest: seq<RevealedOrder>, pool: seq<RevealedOrder>)
    requires TrapPool(own, d, rs, rest) && d.order.side == SELL && Dust(d, batch.markets) && |rs| == 5
    requires multiset(pool) == multiset{d} + multiset(rs) + multiset(rest)
    ensures !Involved(Matches(MatchingInput(batch.id, batch.poolId, pool, batch.markets)), rs[1])
  {
    var symbol := d.order.symbol;
    SellTrapIs(own, d, rs);
    SellBooksWith(own, d, rs, rest, pool);
    WithDustSell(Buys(pool, symbol), Sells(pool, symbol), rs[0], rs[1], rs[2], d, rs[3], rs[4], MarketMap(batch.markets)[symbol]);
    NoneInvolved(batch, pool, symbol, [Fill(2, 2, MAX)], rs[1]);
  }

  // ----- keeping back an order below the minimum ----------------------------------------------------------------

  /** The node's other orders in the symbol are out of the range of a trap for this one. */
  ghost predicate Isolated(own: seq<RevealedOrder>, d: RevealedOrder) {
    Trappable(d.order) && forall r :: r in own && r != d && r.order.symbol == d.order.symbol ==>
      (r.order.side == BUY ==> r.order.price < d.order.price) && (r.order.side == SELL ==> r.order.price > Reach(d.order))
  }

  ghost predicate DustIsolated(own: seq<RevealedOrder>, markets: seq<MarketConfig>) {
    forall d :: d in own && Dust(d, markets) ==> Isolated(own, d)
  }

  lemma DistinctIdentified(rs: seq<RevealedOrder>)
    requires DistinctHashes(rs)
    ensures HashesIdentify(rs)
  {
  }

  lemma PartIdentified(rs: seq<RevealedOrder>, part: seq<RevealedOrder>)
    requires HashesIdentify(rs) && forall r :: r in part ==> r in rs
    ensures HashesIdentify(part)
  {
    forall i, j | 0 <= i < |part| && 0 <= j < |part| && part[i].orderHash == part[j].orderHash ensures part[i] == part[j] {
      assert part[i] in rs && part[j] in rs;
    }
  }

  /** The orders of the node but one. */
  lemma Without(own: seq<RevealedOrder>, d: RevealedOrder) returns (rest: seq<RevealedOrder>)
    requires d in own && DistinctHashes(own)
    ensures multiset(own) == multiset{d} + multiset(rest) && HashesIdentify(rest)
    ensures forall r :: r in rest ==> r in own && r != d
  {
    var i :| 0 <= i < |own| && own[i] == d;
    rest := own[..i] + own[i + 1..];
    SplitAt(own, i);
    ElsewhereDiffers(own, i);
    DistinctIdentified(own);
    PartIdentified(own, rest);
  }

  lemma ElsewhereDiffers(own: seq<RevealedOrder>, i: nat)
    requires i < |own| && DistinctHashes(own)
    ensures forall r :: r in own[..i] + own[i + 1..] ==> r in own && r != own[i]
  {
    forall r | r in own[..i] ensures r in own && r != own[i] { var k :| 0 <= k < i && own[k] == r; }
    forall r | r in own[i + 1..] ensures r in own && r != own[i] { var k :| i < k < |own| && own[k] == r; }
  }

  lemma ShownWithin(codec: O.Codec, own: seq<O.Sealed>, shown: seq<O.Sealed>, withheld: seq<O.Sealed>, r: RevealedOrder)
    requires multiset(own) == multiset(shown) + multiset(withheld)
    ensures r in O.Decoded(codec, shown) ==> r in O.Decoded(codec, own)
  {
    DecodedParts(codec, own, shown, withheld);
    if r in O.Decoded(codec, shown) {
      assert r in multiset(O.Decoded(codec, shown));
      assert r in multiset(O.Decoded(codec, own));
    }
  }

  lemma ShownIdentified(codec: O.Codec, own: seq<O.Sealed>, shown: seq<O.Sealed>, withheld: seq<O.Sealed>)
    requires multiset(own) == multiset(shown) + multiset(withheld) && DistinctHashes(O.Decoded(codec, own))
    ensures HashesIdentify(O.Decoded(codec, shown))
  {
    var a, b := O.Decoded(codec, own), O.Decoded(codec, shown);
    DistinctIdentified(a);
    forall r | r in b ensures r in a { ShownWithin(codec, own, shown, withheld, r); }
    PartIdentified(a, b);
  }

  /** The trap in the two pools: with the order it stays shut, without it it springs. */
  lemma TrapSprings(
    batch: Batch, own: U64, d: RevealedOrder, rs: seq<RevealedOrder>,
    kept: seq<RevealedOrder>, seen: seq<RevealedOrder>, full: seq<RevealedOrder>, cut: seq<RevealedOrder>)
    requires TrapPool(own, d, rs, kept) && TrapPool(own, d, rs, seen) && Dust(d, batch.markets) && |rs| >= 3
    requires multiset(full) == multiset{d} + multiset(rs) + multiset(kept) && multiset(cut) == multiset(rs) + multiset(seen)
    ensures !Involved(Matches(MatchingInput(batch.id, batch.poolId, full, batch.markets)), Witness(d.order, rs))
    ensures Involved(Matches(MatchingInput(batch.id, batch.poolId, cut, batch.markets)), Witness(d.order, rs))
  {
    if d.order.side == BUY {
      BuyTrapIs(own, d, rs);
      BuyTrapWith(batch, own, d, rs, kept, full);
      BuyTrapWithout(batch, own, d, rs, seen, cut);
    } else {
      SellTrapIs(own, d, rs);
      SellTrapWith(batch, own, d, rs, kept, full);
      SellTrapWithout(batch, own, d, rs, seen, cut);
    }
  }

  /** Keeping back an isolated order below the minimum splits the pool for some others, although no match could involve it. */
  lemma WithheldDustSplits(
    batch: Batch, sealer: N.Sealer, nft: U64, own: seq<O.Sealed>, shown: seq<O.Sealed>, withheld: seq<O.Sealed>, k: nat)
    returns (others: seq<O.Sealed>)
    requires N.Faithful(sealer) && CollisionFree(sealer.codec.hash)
    requires multiset(own) == multiset(shown) + multiset(withheld) && OwnEntries(sealer.codec, nft, own)
    requires k < |withheld| && RevealOfEntry(sealer.codec, withheld[k]).Some?
    requires var d := RevealOfEntry(sealer.codec, withheld[k]).value;
      Dust(d, batch.markets) && Isolated(O.Decoded(sealer.codec, own), d)
    ensures OthersEntries(sealer.codec, nft, 2, others) && !AgreesWithRest(batch, sealer.codec, own, shown, others)
  {
    var codec, d := sealer.codec, RevealOfEntry(sealer.codec, withheld[k]).value;
    WithheldUnseen(codec, own, shown, withheld, k);
    ShownIdentified(codec, own, shown, withheld);
    forall r | r in O.Decoded(codec, shown) ensures r in O.Decoded(codec, own) { ShownWithin(codec, own, shown, withheld, r); }
    others := O.CommittedEntries(N.SealAll(sealer, Traps(nft, d.order)));
    N.SealedDecoded(sealer, Traps(nft, d.order));
    TrapsDistinct(nft, d.order, sealer);
    TrapPerNft(nft, d.order, O.Decoded(codec, others));
    TrapSplits(batch, codec, nft, own, shown, others, d);
  }

  /** The entries of a trap tell the node from the rest. */
  lemma TrapSplits(
    batch: Batch, codec: O.Codec, nft: U64, own: seq<O.Sealed>, shown: seq<O.Sealed>, others: seq<O.Sealed>, d: RevealedOrder)
    requires IsTrap(nft, d.order, O.Decoded(codec, others)) && d.order.nftId == nft && Dust(d, batch.markets)
    requires var mine, seen := O.Decoded(codec, own), O.Decoded(codec, shown);
      && Isolated(mine, d) && d in mine && d !in seen && (forall r :: r in seen ==> r in mine)
      && DistinctHashes(mine) && HashesIdentify(seen)
    ensures !AgreesWithRest(batch, codec, own, shown, others)
  {
    var mine, seen, rs := O.Decoded(codec, own), O.Decoded(codec, shown), O.Decoded(codec, others);
    var kept := Without(mine, d);
    TrapSprings(batch, nft, d, rs, kept, seen, mine + rs, seen + rs);
    var x, y := Computed(batch, codec, own, others), Computed(batch, codec, shown, others);
    assert Involved(y, Witness(d.order, rs)) && !Involved(x, Witness(d.order, rs));
    Disagrees(batch, codec, own, shown, others);
  }

  /** A node agrees with the rest of its pool, whatever the others reveal, exactly when all it keeps back is idle, if its
      orders below the minimum are isolated from its other orders. */
  lemma IsolatedDustExact(
    batch: Batch, sealer: N.Sealer, nft: U64, limit: nat, own: seq<O.Sealed>, shown: seq<O.Sealed>, withheld: seq<O.Sealed>)
    requires N.Faithful(sealer) && CollisionFree(sealer.codec.hash) && limit >= 2
    requires multiset(own) == multiset(shown) + multiset(withheld) && |own| < MAX
    requires OwnEntries(sealer.codec, nft, own) && DustIsolated(O.Decoded(sealer.codec, own), batch.markets)
    ensures AlwaysAgrees(batch, sealer.codec, nft, limit, own, shown) <==> AllIdle(sealer.codec, withheld, batch.markets)
  {
    if k :| 0 <= k < |withheld| && !Idle(sealer.codec, withheld[k], batch.markets) {
      WithheldUnseen(sealer.codec, own, shown, withheld, k);
      if Dust(RevealOfEntry(sealer.codec, withheld[k]).value, batch.markets) {
        var others := WithheldDustSplits(batch, sealer, nft, own, shown, withheld, k);
        LimitWeakens(sealer.codec, nft, 2, limit, others);
      } else {
        var others := TradableSplits(batch, sealer, nft, own, shown, withheld, k);
        LimitWeakens(sealer.codec, nft, 1, limit, others);
      }
    } else {
      IdleAlwaysAgrees(batch, sealer.codec, nft, limit, own, shown, withheld);
    }
  }
}
