/** The money path in one theorem: admitted orders, any book, all own fills reserved. */
module EndToEnd {
  import opened Basics
  import opened Sums
  import opened Sorting
  import opened Engine
  import opened EngineFacts
  import opened RunMatching
  import opened RunFacts
  import opened Convert
  import opened Solvency
  import Decimal
  import E = Escrow
  import A = ActiveCache

  predicate Own(m: Match, own: U64) {
    m.buyer.order.nftId == own || m.seller.order.nftId == own
  }

  function OwnMatches(ms: seq<Match>, own: U64): seq<Match> {
    if ms == [] then []
    else OwnMatches(ms[..|ms| - 1], own) + if Own(ms[|ms| - 1], own) then [ms[|ms| - 1]] else []
  }

  /** A market symbol both splits read alike, with a usable scale. */
  predicate GoodSymbol(decimals: Decimals, symbol: Symbol) {
    OneSlash(symbol) && DivisorFor(decimals, symbol) > 0
  }

  lemma GoodSymbolSplits(decimals: Decimals, symbol: Symbol)
    requires GoodSymbol(decimals, symbol)
    ensures SettlementTokens(symbol) == (BaseToken(symbol), QuoteToken(symbol))
    ensures SettleDivisor(decimals, symbol) == DivisorFor(decimals, symbol) > 0
  {
    TokensAgree(symbol);
  }

  // ----- one symbol ----------------------------------------------------------------

  /** What an own reveal may cost on a token. */
  function Cost(token: Token, own: U64, decimals: Decimals): RevealedOrder -> nat {
    (r: RevealedOrder) => if r.order.nftId == own then OutflowOf(r.order, token, decimals) else 0
  }

  /** What an own match reserves on a token. */
  function OwnReserves(token: Token, own: U64, decimals: Decimals): Match -> nat {
    (m: Match) => if Own(m, own) then ReservesOf(m, token, own, decimals) else 0
  }

  /** Cost of `q` units of a buy: floors of the scaled product on the quote token. */
  function BuyCost(buys: Book, own: U64, charged: bool, divisor: nat): Weight
    requires divisor > 0
  {
    (k: nat, q: nat) => if charged && k < |buys| && buys[k].order.nftId == own then QuoteUnits(q, buys[k].order.price, divisor) else 0
  }

  function SellCost(sells: Book, own: U64, charged: bool): Weight {
    (k: nat, q: nat) => if charged && k < |sells| && sells[k].order.nftId == own then q else 0
  }

  /** Two floors never exceed the floor of the sum. */
  lemma FloorsAdd(x: nat, y: nat, price: nat, divisor: nat)
    requires divisor > 0
    ensures QuoteUnits(x, price, divisor) + QuoteUnits(y, price, divisor) <= QuoteUnits(x + y, price, divisor)
  {
    assert (x + y) * price == x * price + y * price;
    FloorSum(x * price, y * price, divisor);
  }

  lemma FloorSum(a: nat, b: nat, d: nat)
    requires d > 0
    ensures a / d + b / d <= (a + b) / d
  {
    var s := a / d + b / d;
    assert a + b == d * s + (a % d + b % d);
    FloorAtLeast(a + b, s, d);
  }

  lemma FloorAtLeast(n: nat, s: nat, d: nat)
    requires d > 0 && d * s <= n
    ensures s <= n / d
  {
    NextMultiple(n / d, s, d);
    Recompose(n, d);
  }

  lemma CostsSuperadditive(buys: Book, sells: Book, own: U64, onQuote: bool, onBase: bool, divisor: nat)
    requires divisor > 0
    ensures Superadditive(BuyCost(buys, own, onQuote, divisor)) && Superadditive(SellCost(sells, own, onBase))
  {
    forall k: nat, x: nat, y: nat ensures NoGain(BuyCost(buys, own, onQuote, divisor), k, x, y) {
      if k < |buys| { FloorsAdd(x, y, buys[k].order.price, divisor); }
    }
    forall k: nat, x: nat, y: nat ensures NoGain(SellCost(sells, own, onBase), k, x, y) {
    }
  }

  /** A match costs its own side only, since buyer and seller differ; the cut to u64 never adds. */
  lemma MatchCost(batchId: nat, poolId: U64, symbol: Symbol, buys: Book, sells: Book, f: Fill, token: Token, own: U64, decimals: Decimals)
    requires GoodSymbol(decimals, symbol)
    requires f.b < |buys| && f.s < |sells| && f.q < TWO64 && !SameNft(buys[f.b], sells[f.s])
    ensures OwnReserves(token, own, decimals)(MatchOf(batchId, poolId, symbol, buys[f.b], sells[f.s], f.q))
         <= BuyCost(buys, own, QuoteToken(symbol) == token, DivisorFor(decimals, symbol))(f.b, f.q)
          + SellCost(sells, own, BaseToken(symbol) == token)(f.s, f.q)
  {
    GoodSymbolSplits(decimals, symbol);
    WrapBelow(QuoteUnits(f.q, buys[f.b].order.price, DivisorFor(decimals, symbol)));
  }

  lemma WrapBelow(n: nat)
    ensures Wrap(n) <= n
  {
  }

  lemma {:induction false} MatchesCost(
    batchId: nat, poolId: U64, symbol: Symbol, buys: Book, sells: Book, fills: seq<Fill>, token: Token, own: U64, decimals: Decimals)
    requires GoodSymbol(decimals, symbol) && FillsFit(buys, sells, fills)
    requires forall k :: 0 <= k < |fills| ==> !SameNft(buys[fills[k].b], sells[fills[k].s])
    ensures Total(MatchesOf(batchId, poolId, symbol, buys, sells, fills), OwnReserves(token, own, decimals))
         <= BuyWeight(fills, BuyCost(buys, own, QuoteToken(symbol) == token, DivisorFor(decimals, symbol)))
          + SellWeight(fills, SellCost(sells, own, BaseToken(symbol) == token))
  {
    if fills != [] {
      var f, rest := fills[0], fills[1..];
      assert forall k :: 0 <= k < |rest| ==> rest[k] == fills[k + 1];
      MatchesCost(batchId, poolId, symbol, buys, sells, rest, token, own, decimals);
      MatchCost(batchId, poolId, symbol, buys, sells, f, token, own, decimals);
      var first := MatchOf(batchId, poolId, symbol, buys[f.b], sells[f.s], f.q);
      assert MatchesOf(batchId, poolId, symbol, buys, sells, fills)
        == [first] + MatchesOf(batchId, poolId, symbol, buys, sells, rest);
      TotalCons(first, MatchesOf(batchId, poolId, symbol, buys, sells, rest), OwnReserves(token, own, decimals));
    }
  }

  /** A whole book has the capacity of its orders. */
  lemma {:induction false} CapacityIsTotal(book: Book, w: Weight, cost: RevealedOrder -> nat, k: nat)
    requires k <= |book|
    requires forall p :: 0 <= p < |book| ==> w(p, book[p].order.quantity) == cost(book[p])
    ensures Capacity(book, w, k, Quantity(book, k)) == Total(book[k..], cost)
    decreases |book| - k
  {
    if k < |book| {
      CapacityIsTotal(book, w, cost, k + 1);
      assert book[k..] == [book[k]] + book[k + 1..];
      TotalCons(book[k], book[k + 1..], cost);
    }
  }

  lemma EntryCost(rs: seq<RevealedOrder>, symbol: Symbol, token: Token, own: U64, decimals: Decimals, p: nat)
    requires GoodSymbol(decimals, symbol)
    ensures var buys, sells, cost := Buys(rs, symbol), Sells(rs, symbol), Cost(token, own, decimals);
      && (p < |buys| ==>
            BuyCost(buys, own, QuoteToken(symbol) == token, DivisorFor(decimals, symbol))(p, buys[p].order.quantity) == cost(buys[p]))
      && (p < |sells| ==> SellCost(sells, own, BaseToken(symbol) == token)(p, sells[p].order.quantity) == cost(sells[p]))
  {
    BookMember(rs, symbol, p);
  }

  lemma BookCosts(rs: seq<RevealedOrder>, symbol: Symbol, token: Token, own: U64, decimals: Decimals)
    requires GoodSymbol(decimals, symbol)
    ensures var buys, sells, cost := Buys(rs, symbol), Sells(rs, symbol), Cost(token, own, decimals);
      && Capacity(buys, BuyCost(buys, own, QuoteToken(symbol) == token, DivisorFor(decimals, symbol)), 0, Quantity(buys, 0))
           == Total(buys, cost)
      && Capacity(sells, SellCost(sells, own, BaseToken(symbol) == token), 0, Quantity(sells, 0)) == Total(sells, cost)
  {
    var buys, sells, cost := Buys(rs, symbol), Sells(rs, symbol), Cost(token, own, decimals);
    var wb := BuyCost(buys, own, QuoteToken(symbol) == token, DivisorFor(decimals, symbol));
    var ws := SellCost(sells, own, BaseToken(symbol) == token);
    forall p | 0 <= p < |buys| ensures wb(p, buys[p].order.quantity) == cost(buys[p]) {
      EntryCost(rs, symbol, token, own, decimals, p);
    }
    forall p | 0 <= p < |sells| ensures ws(p, sells[p].order.quantity) == cost(sells[p]) {
      EntryCost(rs, symbol, token, own, decimals, p);
    }
    CapacityIsTotal(buys, wb, cost, 0);
    CapacityIsTotal(sells, ws, cost, 0);
    assert buys[0..] == buys && sells[0..] == sells;
  }

  lemma {:induction false} SidesTotal(rs: seq<RevealedOrder>, cost: RevealedOrder -> nat)
    ensures Total(OfSide(rs, BUY), cost) + Total(OfSide(rs, SELL), cost) <= Total(rs, cost)
  {
    if rs != [] {
      var front, r := rs[..|rs| - 1], rs[|rs| - 1];
      SidesTotal(front, cost);
      TotalSnoc(OfSide(front, BUY), r, cost);
      TotalSnoc(OfSide(front, SELL), r, cost);
      assert OfSide(front, BUY) + [] == OfSide(front, BUY) && OfSide(front, SELL) + [] == OfSide(front, SELL);
    }
  }

  /** On one symbol the own matches reserve at most what the own reveals of that symbol may cost. */
  lemma SymbolCost(input: MatchingInput, symbol: Symbol, token: Token, own: U64, decimals: Decimals)
    requires symbol in MarketMap(input.markets) ==> GoodSymbol(decimals, symbol)
    ensures Total(SymbolMatches(input, symbol), OwnReserves(token, own, decimals))
         <= Total(OfSymbol(input.revealed, symbol), Cost(token, own, decimals))
  {
    if symbol in MarketMap(input.markets) {
      var rs, cost := input.revealed, Cost(token, own, decimals);
      var buys, sells := Buys(rs, symbol), Sells(rs, symbol);
      var minQuantity := MarketMap(input.markets)[symbol];
      var fills := Fills(buys, sells, minQuantity);
      var wb := BuyCost(buys, own, QuoteToken(symbol) == token, DivisorFor(decimals, symbol));
      var ws := SellCost(sells, own, BaseToken(symbol) == token);
      FillAccounting(buys, sells, minQuantity);
      WalkFits(buys, sells, minQuantity, Start(buys, sells));
      MatchesCost(input.batchId, input.poolId, symbol, buys, sells, fills, token, own, decimals);
      CostsSuperadditive(buys, sells, own, QuoteToken(symbol) == token, BaseToken(symbol) == token, DivisorFor(decimals, symbol));
      WalkConserves(buys, sells, minQuantity, Start(buys, sells), wb, ws);
      BookCosts(rs, symbol, token, own, decimals);
      TotalPermuted(buys, BookEntries(rs, symbol, BUY), cost);
      TotalPermuted(sells, BookEntries(rs, symbol, SELL), cost);
      SidesTotal(OfSymbol(rs, symbol), cost);
    }
  }

  // ----- all symbols -------------------------------------------------------------------

  ghost function SymbolTotals(rs: seq<RevealedOrder>, symbols: seq<Symbol>, cost: RevealedOrder -> nat): nat {
    if symbols == [] then 0
    else SymbolTotals(rs, symbols[..|symbols| - 1], cost) + Total(OfSymbol(rs, symbols[|symbols| - 1]), cost)
  }

  ghost predicate Distinct(symbols: seq<Symbol>) {
    forall i, j :: 0 <= i < j < |symbols| ==> symbols[i] != symbols[j]
  }

  lemma OfSymbolSnoc(rs: seq<RevealedOrder>, r: RevealedOrder, symbol: Symbol, cost: RevealedOrder -> nat)
    ensures Total(OfSymbol(rs + [r], symbol), cost)
         == Total(OfSymbol(rs, symbol), cost) + if r.order.symbol == symbol then cost(r) else 0
  {
    assert (rs + [r])[..|rs|] == rs;
    TotalSnoc(OfSymbol(rs, symbol), r, cost);
    assert OfSymbol(rs, symbol) + [] == OfSymbol(rs, symbol);
  }

  /** One more reveal is counted under at most one of several distinct symbols. */
  lemma {:induction false} SymbolTotalsSnoc(rs: seq<RevealedOrder>, r: RevealedOrder, symbols: seq<Symbol>, cost: RevealedOrder -> nat)
    requires Distinct(symbols)
    ensures SymbolTotals(rs + [r], symbols, cost)
         == SymbolTotals(rs, symbols, cost) + if r.order.symbol in symbols then cost(r) else 0
  {
    if symbols != [] {
      var front, last := symbols[..|symbols| - 1], symbols[|symbols| - 1];
      SymbolTotalsSnoc(rs, r, front, cost);
      OfSymbolSnoc(rs, r, last, cost);
      LastIsNew(symbols);
    }
  }

  lemma LastIsNew(symbols: seq<Symbol>)
    requires Distinct(symbols) && symbols != []
    ensures symbols[|symbols| - 1] !in symbols[..|symbols| - 1]
    ensures forall s :: s in symbols <==> s in symbols[..|symbols| - 1] || s == symbols[|symbols| - 1]
  {
    assert symbols == symbols[..|symbols| - 1] + [symbols[|symbols| - 1]];
  }

  lemma {:induction false} SymbolTotalsNil(symbols: seq<Symbol>, cost: RevealedOrder -> nat)
    ensures SymbolTotals([], symbols, cost) == 0
  {
    if symbols != [] { SymbolTotalsNil(symbols[..|symbols| - 1], cost); }
  }

  lemma {:induction false} SymbolTotalsBound(rs: seq<RevealedOrder>, symbols: seq<Symbol>, cost: RevealedOrder -> nat)
    requires Distinct(symbols)
    ensures SymbolTotals(rs, symbols, cost) <= Total(rs, cost)
  {
    if rs == [] {
      SymbolTotalsNil(symbols, cost);
    } else {
      var front, r := rs[..|rs| - 1], rs[|rs| - 1];
      assert rs == front + [r];
      SymbolTotalsBound(front, symbols, cost);
      SymbolTotalsSnoc(front, r, symbols, cost);
    }
  }

  ghost predicate GoodMarkets(input: MatchingInput, decimals: Decimals) {
    forall symbol :: symbol in MarketMap(input.markets) ==> GoodSymbol(decimals, symbol)
  }

  lemma {:induction false} AllMatchesCost(input: MatchingInput, symbols: seq<Symbol>, token: Token, own: U64, decimals: Decimals)
    requires GoodMarkets(input, decimals)
    ensures Total(AllMatches(input, symbols), OwnReserves(token, own, decimals))
         <= SymbolTotals(input.revealed, symbols, Cost(token, own, decimals))
  {
    if symbols != [] {
      var front, last := symbols[..|symbols| - 1], symbols[|symbols| - 1];
      AllMatchesCost(input, front, token, own, decimals);
      SymbolCost(input, last, token, own, decimals);
      TotalAppend(AllMatches(input, front), SymbolMatches(input, last), OwnReserves(token, own, decimals));
    }
  }

  lemma {:induction false} OwnMatchesTotal(ms: seq<Match>, own: U64, weight: Match -> nat, ownWeight: Match -> nat)
    requires forall m :: ownWeight(m) == if Own(m, own) then weight(m) else 0
    ensures Total(OwnMatches(ms, own), weight) == Total(ms, ownWeight)
  {
    if ms != [] {
      var front, m := ms[..|ms| - 1], ms[|ms| - 1];
      OwnMatchesTotal(front, own, weight, ownWeight);
      TotalSnoc(OwnMatches(front, own), m, weight);
      assert OwnMatches(front, own) + [] == OwnMatches(front, own);
    }
  }

  // ----- own orders ----------------------------------------------------------------------

  /** The orders an NFT has in the pool. */
  function OrdersOf(rs: seq<RevealedOrder>, own: U64): seq<Order> {
    if rs == [] then []
    else OrdersOf(rs[..|rs| - 1], own) + if rs[|rs| - 1].order.nftId == own then [rs[|rs| - 1].order] else []
  }

  lemma {:induction false} OrdersOfTotal(rs: seq<RevealedOrder>, token: Token, own: U64, decimals: Decimals)
    ensures Total(rs, Cost(token, own, decimals)) == Total(OrdersOf(rs, own), OutflowOn(token, decimals))
  {
    if rs != [] {
      var front, r := rs[..|rs| - 1], rs[|rs| - 1];
      OrdersOfTotal(front, token, own, decimals);
      TotalSnoc(OrdersOf(front, own), r.order, OutflowOn(token, decimals));
      assert OrdersOf(front, own) + [] == OrdersOf(front, own);
    }
  }

  /** In any pool, the own fills of a run reserve at most the outflow of the orders the node has in it. */
  lemma RunCost(input: MatchingInput, token: Token, own: U64, decimals: Decimals)
    requires GoodMarkets(input, decimals)
    ensures Total(OwnMatches(Matches(input), own), Reserves(token, own, decimals))
         <= Total(OrdersOf(input.revealed, own), OutflowOn(token, decimals))
  {
    var symbols := SortedStrings(SymbolsIn(input.revealed));
    SortedSymbolsDistinct(SymbolsIn(input.revealed));
    OwnMatchesTotal(Matches(input), own, Reserves(token, own, decimals), OwnReserves(token, own, decimals));
    AllMatchesCost(input, symbols, token, own, decimals);
    SymbolTotalsBound(input.revealed, symbols, Cost(token, own, decimals));
    OrdersOfTotal(input.revealed, token, own, decimals);
  }

  // ----- the theorem -----------------------------------------------------------------------

  /** The context reads its balances off the tracker. */
  ghost predicate ReadsTracker(ctx: Context, balances: E.Balances) {
    && ctx.projectedBalances.Keys == balances.Keys
    && forall token :: token in balances ==> ctx.projectedBalances[token] == E.Projected(balances[token])
  }

  lemma {:induction false} OwnMatchesMembers(ms: seq<Match>, own: U64, k: nat)
    requires k < |OwnMatches(ms, own)|
    ensures exists i :: 0 <= i < |ms| && ms[i] == OwnMatches(ms, own)[k]
  {
    var front := ms[..|ms| - 1];
    if k < |OwnMatches(front, own)| {
      OwnMatchesMembers(front, own, k);
      var i :| 0 <= i < |front| && front[i] == OwnMatches(front, own)[k];
      assert ms[i] == OwnMatches(ms, own)[k];
    } else {
      assert ms[|ms| - 1] == OwnMatches(ms, own)[k];
    }
  }

  lemma {:induction false} OwnMatchesDistinct(ms: seq<Match>, own: U64)
    requires DistinctMatches(ms)
    ensures DistinctMatches(OwnMatches(ms, own))
  {
    if ms != [] {
      var front, m := ms[..|ms| - 1], ms[|ms| - 1];
      OwnMatchesDistinct(front, own);
      forall k | 0 <= k < |OwnMatches(front, own)| ensures OwnMatches(front, own)[k].matchHash != m.matchHash {
        OwnMatchesMembers(front, own, k);
        var i :| 0 <= i < |front| && front[i] == OwnMatches(front, own)[k];
        assert ms[i] == front[i];
      }
    }
  }

  lemma RunRegistrable(input: MatchingInput, balances: E.Balances, own: U64, decimals: Decimals)
    requires GoodMarkets(input, decimals) && DistinctHashes(input.revealed)
    requires forall h: MatchHash :: h.batchId == input.batchId ==> !E.HasPending(balances, h)
    ensures Registrable(balances, Matches(input), decimals)
    ensures Registrable(balances, OwnMatches(Matches(input), own), decimals)
  {
    var all := Matches(input);
    var ms := OwnMatches(all, own);
    MatchesSound(input);
    MatchHashesDistinct(input);
    OwnMatchesDistinct(all, own);
    forall k | 0 <= k < |all| ensures SettleDivisor(decimals, all[k].symbol) > 0 && !E.HasPending(balances, all[k].matchHash) {
      assert SoundMatch(input, all[k]);
      GoodSymbolSplits(decimals, all[k].symbol);
    }
    forall k | 0 <= k < |ms| ensures SettleDivisor(decimals, ms[k].symbol) > 0 && !E.HasPending(balances, ms[k].matchHash) {
      OwnMatchesMembers(all, own, k);
    }
  }

  /** The own matches of a run fit the balances the orders were admitted against. */
  lemma OwnMatchesAffordable(balances: E.Balances, orders: seq<Order>, ctx: Context, input: MatchingInput)
    requires ReadsTracker(ctx, balances) && Covered(orders, ctx)
    requires multiset(OrdersOf(input.revealed, ctx.nftId)) <= multiset(orders)
    requires GoodMarkets(input, ctx.tokenDecimals)
    ensures Affordable(balances, OwnMatches(Matches(input), ctx.nftId), ctx.nftId, ctx.tokenDecimals)
  {
    var own, decimals := ctx.nftId, ctx.tokenDecimals;
    var ms := OwnMatches(Matches(input), own);
    forall token ensures Total(ms, Reserves(token, own, decimals)) <= E.Projected(E.Of(balances, token)) {
      RunCost(input, token, own, decimals);
      TotalIncluded(OrdersOf(input.revealed, own), orders, OutflowOn(token, decimals));
      assert TotalOutflow(orders, token, ctx) <= Lookup(ctx.projectedBalances, token);
    }
  }

  // ----- the matches of others ---------------------------------------------------------------

  /** The base quantity of a match between two other nodes. */
  function ForeignOf(m: Match, token: Token, own: U64): nat {
    if !Own(m, own) && SettlementTokens(m.symbol).0 == token then m.fillQuantity else 0
  }

  function ForeignOn(token: Token, own: U64): Match -> nat {
    (m: Match) => ForeignOf(m, token, own)
  }

  /** The pool reserves the base of foreign matches and what the own ones need. */
  lemma {:induction false} ForeignAndOwn(ms: seq<Match>, token: Token, own: U64, decimals: Decimals)
    requires AllDivisible(decimals, ms)
    ensures Total(ms, Reserves(token, own, decimals))
         == Total(ms, ForeignOn(token, own)) + Total(OwnMatches(ms, own), Reserves(token, own, decimals))
  {
    if ms != [] {
      var front, m := ms[..|ms| - 1], ms[|ms| - 1];
      ForeignAndOwn(front, token, own, decimals);
      TotalSnoc(OwnMatches(front, own), m, Reserves(token, own, decimals));
      assert OwnMatches(front, own) + [] == OwnMatches(front, own);
    }
  }

  /** Per token, the foreign base and the own reservations together fit the projection. */
  ghost predicate FitsWithForeign(balances: E.Balances, ms: seq<Match>, own: U64, decimals: Decimals) {
    forall token ::
      Total(ms, ForeignOn(token, own)) + Total(OwnMatches(ms, own), Reserves(token, own, decimals)) <= E.Projected(E.Of(balances, token))
  }

  lemma ForeignFits(balances: E.Balances, ms: seq<Match>, own: U64, decimals: Decimals)
    requires AllDivisible(decimals, ms)
    ensures Affordable(balances, ms, own, decimals) <==> FitsWithForeign(balances, ms, own, decimals)
  {
    forall token
      ensures Total(ms, Reserves(token, own, decimals)) <= E.Projected(E.Of(balances, token)) <==>
        Total(ms, ForeignOn(token, own)) + Total(OwnMatches(ms, own), Reserves(token, own, decimals)) <= E.Projected(E.Of(balances, token))
    {
      ForeignAndOwn(ms, token, own, decimals);
    }
  }

  /** The swap loop on a whole list: nothing fails exactly when every match fits beside the unskipped ones before it. It is
      enough that foreign and own matches fit all together, and where nothing is skipped that is needed too. */
  ghost predicate LoopExact(balances: E.Balances, ms: seq<Match>, own: U64, decimals: Decimals, skip: Skip)
    requires AllDivisible(decimals, ms)
  {
    var clean := RegisterAll(balances, ms, own, decimals, skip).failed == [];
    && (clean <==> FitsInTurn(balances, ms, own, decimals, skip))
    && (FitsWithForeign(balances, ms, own, decimals) ==> clean)
    && (NoneSkipped(ms, skip) ==> (clean <==> FitsWithForeign(balances, ms, own, decimals)))
    && E.Solvent(RegisterAll(balances, ms, own, decimals, skip).balances)
  }

  lemma SwapLoopExact(balances: E.Balances, ms: seq<Match>, own: U64, decimals: Decimals, skip: Skip)
    requires E.Solvent(balances) && Registrable(balances, ms, decimals)
    ensures LoopExact(balances, ms, own, decimals, skip)
  {
    RegisterAllExact(balances, ms, own, decimals, skip);
    RegisterAllSettles(balances, ms, own, decimals, skip);
    ForeignFits(balances, ms, own, decimals);
    if FitsWithForeign(balances, ms, own, decimals) { AffordableFits(balances, ms, own, decimals, skip); }
    if NoneSkipped(ms, skip) { UnskippedExact(balances, ms, own, decimals, skip); }
  }

  /** What the run of a batch does to a tracker: the own matches alone never fail, and the whole list behaves as said. */
  ghost predicate SwapOutcome(balances: E.Balances, ms: seq<Match>, own: U64, decimals: Decimals, skip: Skip) {
    && Registrable(balances, ms, decimals) && Registrable(balances, OwnMatches(ms, own), decimals)
    && Affordable(balances, OwnMatches(ms, own), own, decimals)
    && RegisterAll(balances, OwnMatches(ms, own), own, decimals, skip).failed == []
    && LoopExact(balances, ms, own, decimals, skip)
  }

  /** Orders admitted against the tracker's projected balances can be reserved in full, whatever the pool does. */
  lemma EndToEndSolvency(
    balances: E.Balances, specs: seq<OrderSpec>, ctx: Context, nonces: nat -> Bytes, input: MatchingInput, skip: Skip)
    requires E.Solvent(balances) && ReadsTracker(ctx, balances)
    requires AllComputable(Effective(specs, ctx), ctx) && NeverSlips(Effective(specs, ctx), ctx)
    requires multiset(OrdersOf(input.revealed, ctx.nftId)) <= multiset(Validated(specs, ctx, nonces).orders)
    requires GoodMarkets(input, ctx.tokenDecimals) && DistinctHashes(input.revealed)
    requires forall h: MatchHash :: h.batchId == input.batchId ==> !E.HasPending(balances, h)
    ensures SwapOutcome(balances, Matches(input), ctx.nftId, ctx.tokenDecimals, skip)
  {
    var own, decimals := ctx.nftId, ctx.tokenDecimals;
    RunRegistrable(input, balances, own, decimals);
    CoveredExactly(specs, ctx, nonces);
    OwnMatchesAffordable(balances, Validated(specs, ctx, nonces).orders, ctx, input);
    AffordableFits(balances, OwnMatches(Matches(input), own), own, decimals, skip);
    RegisterAllExact(balances, OwnMatches(Matches(input), own), own, decimals, skip);
    SwapLoopExact(balances, Matches(input), own, decimals, skip);
  }

  // ----- the swap loop registers every match of the pool -------------------------------------

  const TOKENS: Decimals := map["A" := 5, "B" := 5]

  function Sale(batchId: nat, buyer: U64, seller: U64): Match {
    MatchOf(batchId, 0, "A/B", Plain(buyer, BUY, 1, 10, buyer), Plain(seller, SELL, 1, 10, seller), 10)
  }

  lemma SaleReserves(seller: U64, token: Token)
    ensures SettleDivisor(TOKENS, "A/B") > 0
    ensures Reserves(token, 1, TOKENS)(Sale(7, 2, seller)) == if token == "A" then 10 else 0
  {
    assert "A/B"[1..] == "/B" && Decimal.Find("/B", '/') == 0 && Decimal.Find("A/B", '/') == 1;
    assert "A/B"[..1] == "A" && "A/B"[2..] == "B";
    Decimal.PowFits(8);
  }

  const TEN: E.Balances := map["A" := E.TokenBalance(10, map[], map[], 0)]

  lemma TenProjected(token: Token)
    ensures E.Solvent(TEN) && E.Projected(E.Of(TEN, token)) == if token == "A" then 10 else 0
  {
  }

  /** A match that reserves 10 of the token A. */
  ghost predicate TakesTen(m: Match) {
    && SettleDivisor(TOKENS, m.symbol) > 0
    && forall token :: Reserves(token, 1, TOKENS)(m) == if token == "A" then 10 else 0
  }

  lemma SaleTakesTen(seller: U64)
    ensures TakesTen(Sale(7, 2, seller))
  {
    SaleReserves(seller, "A");
    forall token ensures Reserves(token, 1, TOKENS)(Sale(7, 2, seller)) == if token == "A" then 10 else 0 {
      SaleReserves(seller, token);
    }
  }

  /** A balance of 10 pays for one such match. */
  lemma OneFits(m: Match)
    requires TakesTen(m)
    ensures E.Solvent(TEN) && Registrable(TEN, [m], TOKENS) && Affordable(TEN, [m], 1, TOKENS)
  {
    TenProjected("A");
    forall token ensures Total([m], Reserves(token, 1, TOKENS)) <= E.Projected(E.Of(TEN, token)) {
      TotalPair(m, m, Reserves(token, 1, TOKENS));
      TenProjected(token);
    }
  }

  /** And not for two. */
  lemma TwoDoNotFit(first: Match, second: Match)
    requires TakesTen(first) && TakesTen(second) && first.matchHash != second.matchHash
    ensures Registrable(TEN, [first, second], TOKENS) && !Affordable(TEN, [first, second], 1, TOKENS)
    ensures !FitsBeside(TEN, [first], second, 1, TOKENS) && FitsBeside(TEN, [], second, 1, TOKENS)
  {
    TenProjected("A");
    TotalPair(first, second, Reserves("A", 1, TOKENS));
    TotalPair(first, first, Reserves("A", 1, TOKENS));
    forall token ensures Total([], Reserves(token, 1, TOKENS)) + Reserves(token, 1, TOKENS)(second) <= E.Projected(E.Of(TEN, token)) {
      TenProjected(token);
    }
  }

  lemma SecondFails(first: Match, second: Match, skip: Skip)
    requires TakesTen(first) && TakesTen(second) && first.matchHash != second.matchHash && !skip(first)
    ensures Registrable(TEN, [first, second], TOKENS) && second in RegisterAll(TEN, [first, second], 1, TOKENS, skip).failed
  {
    var ms := [first, second];
    OneFits(first);
    TwoDoNotFit(first, second);
    assert ms[..1] == [first] && ms[1] == second && [first][..0] == [];
    AffordableFits(TEN, [first], 1, TOKENS, skip);
    RegisterAllExact(TEN, [first], 1, TOKENS, skip);
    HeldUnskipped(TEN, [first], 1, TOKENS, skip);
    assert Unskipped([first], skip) == [first];
    FailsExactly(TEN, ms, 1, TOKENS, skip, 1);
  }

  lemma OwnOfPair(other: Match, mine: Match, own: U64)
    requires !Own(other, own) && Own(mine, own)
    ensures OwnMatches([other, mine], own) == [mine]
  {
    assert [other, mine][..1] == [other] && [other][..0] == [];
    assert OwnMatches([other], own) == [];
  }

  /** A match between two other nodes is booked as a sale of this node and starves its own match. */
  lemma ThirdPartyStarves(skip: Skip)
    requires !skip(Sale(7, 2, 3))
    ensures var ms, mine := [Sale(7, 2, 3), Sale(7, 2, 1)], Sale(7, 2, 1);
      && OwnMatches(ms, 1) == [mine]
      && AllDivisible(TOKENS, ms) && AllDivisible(TOKENS, [mine])
      && RegisterAll(TEN, [mine], 1, TOKENS, skip).failed == []
      && mine in RegisterAll(TEN, ms, 1, TOKENS, skip).failed
  {
    var other, mine := Sale(7, 2, 3), Sale(7, 2, 1);
    OwnOfPair(other, mine, 1);
    SaleTakesTen(3);
    SaleTakesTen(1);
    OneFits(mine);
    AffordableFits(TEN, [mine], 1, TOKENS, skip);
    RegisterAllExact(TEN, [mine], 1, TOKENS, skip);
    SecondFails(other, mine, skip);
  }

  /** A skipped match makes room again: the two matches do not fit together, and still neither fails. */
  lemma SkipMakesRoom(skip: Skip)
    requires skip(Sale(7, 2, 1))
    ensures var ms := [Sale(7, 2, 1), Sale(7, 2, 3)];
      && AllDivisible(TOKENS, ms) && !FitsWithForeign(TEN, ms, 1, TOKENS)
      && RegisterAll(TEN, ms, 1, TOKENS, skip).failed == []
  {
    var mine, other := Sale(7, 2, 1), Sale(7, 2, 3);
    var ms := [mine, other];
    SaleTakesTen(3);
    SaleTakesTen(1);
    OneFits(mine);
    TwoDoNotFit(mine, other);
    ForeignFits(TEN, ms, 1, TOKENS);
    AffordableFits(TEN, [mine], 1, TOKENS, skip);
    assert [mine][..0] == [] && Unskipped([mine], skip) == [] && ms == [mine] + [other];
    FitsInTurnSnoc(TEN, [mine], other, 1, TOKENS, skip);
    RegisterAllExact(TEN, ms, 1, TOKENS, skip);
  }

  /** The own node pays gas for it, so a cached inactive buyer has it skipped. */
  lemma SaleSkipped(entries: A.Entries, ttl: nat, readAt: (Match, U64) -> nat)
    requires A.Hit(entries, 2, ttl, readAt(Sale(7, 2, 1), 2)) == Some(false)
    ensures Inactive(entries, ttl, readAt, 1)(Sale(7, 2, 1)) && !Inactive(entries, ttl, readAt, 1)(Sale(7, 2, 3))
  {
  }
}
