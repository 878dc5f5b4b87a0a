/** Who is served first, in prices and hashes of the reveals. */
module Priority {
  import opened Basics
  import opened Sums
  import opened Sorting
  import opened Engine
  import opened EngineFacts
  import opened RunMatching
  import opened RunFacts

  /** What an order bought (sold) in a match. */
  function BoughtBy(r: RevealedOrder): Match -> nat {
    (m: Match) => if m.buyer == r then m.fillQuantity else 0
  }

  function SoldBy(r: RevealedOrder): Match -> nat {
    (m: Match) => if m.seller == r then m.fillQuantity else 0
  }

  // ----- from matches to positions -----------------------------------------------------

  /** Position `p` is the only one of the order. */
  ghost predicate OnlyAt(book: Book, p: nat, r: RevealedOrder) {
    p < |book| && forall k :: 0 <= k < |book| ==> (book[k] == r <==> k == p)
  }

  lemma {:induction false} BoughtAt(input: MatchingInput, symbol: Symbol, buys: Book, sells: Book, fills: seq<Fill>, p: nat, r: RevealedOrder)
    requires FillsFit(buys, sells, fills) && OnlyAt(buys, p, r)
    ensures Total(MatchesOf(input.batchId, input.poolId, symbol, buys, sells, fills), BoughtBy(r)) == FilledBuy(fills, p)
  {
    if fills != [] {
      var f, rest := fills[0], fills[1..];
      assert forall k :: 0 <= k < |rest| ==> rest[k] == fills[k + 1];
      BoughtAt(input, symbol, buys, sells, rest, p, r);
      var first := MatchOf(input.batchId, input.poolId, symbol, buys[f.b], sells[f.s], f.q);
      var later := MatchesOf(input.batchId, input.poolId, symbol, buys, sells, rest);
      assert MatchesOf(input.batchId, input.poolId, symbol, buys, sells, fills) == [first] + later;
      TotalCons(first, later, BoughtBy(r));
    }
  }

  lemma {:induction false} SoldAt(input: MatchingInput, symbol: Symbol, buys: Book, sells: Book, fills: seq<Fill>, p: nat, r: RevealedOrder)
    requires FillsFit(buys, sells, fills) && OnlyAt(sells, p, r)
    ensures Total(MatchesOf(input.batchId, input.poolId, symbol, buys, sells, fills), SoldBy(r)) == FilledSell(fills, p)
  {
    if fills != [] {
      var f, rest := fills[0], fills[1..];
      assert forall k :: 0 <= k < |rest| ==> rest[k] == fills[k + 1];
      SoldAt(input, symbol, buys, sells, rest, p, r);
      var first := MatchOf(input.batchId, input.poolId, symbol, buys[f.b], sells[f.s], f.q);
      var later := MatchesOf(input.batchId, input.poolId, symbol, buys, sells, rest);
      assert MatchesOf(input.batchId, input.poolId, symbol, buys, sells, fills) == [first] + later;
      TotalCons(first, later, SoldBy(r));
    }
  }

  lemma {:induction false} ZeroTotal<T>(s: seq<T>, weight: T -> nat)
    requires forall k :: 0 <= k < |s| ==> weight(s[k]) == 0
    ensures Total(s, weight) == 0
  {
    if s != [] { ZeroTotal(s[..|s| - 1], weight); }
  }

  /** A weight that one symbol carries alone. */
  lemma {:induction false} OneSymbol(input: MatchingInput, symbols: seq<Symbol>, symbol: Symbol, weight: Match -> nat)
    requires forall i, j :: 0 <= i < j < |symbols| ==> symbols[i] != symbols[j]
    requires forall s :: s != symbol ==> Total(SymbolMatches(input, s), weight) == 0
    ensures Total(AllMatches(input, symbols), weight) == if symbol in symbols then Total(SymbolMatches(input, symbol), weight) else 0
  {
    if symbols != [] {
      var front, last := symbols[..|symbols| - 1], symbols[|symbols| - 1];
      OneSymbol(input, front, symbol, weight);
      TotalAppend(AllMatches(input, front), SymbolMatches(input, last), weight);
      SplitLast(symbols);
      assert last == symbol ==> symbol !in front;
    }
  }

  /** What an order trades in a run, it trades in its symbol. */
  lemma RunTotal(input: MatchingInput, r: RevealedOrder, weight: Match -> nat)
    requires r in input.revealed
    requires forall m: Match :: m.buyer != r && m.seller != r ==> weight(m) == 0
    ensures Total(Matches(input), weight) == Total(SymbolMatches(input, r.order.symbol), weight)
  {
    var symbol := r.order.symbol;
    var symbols := SortedStrings(SymbolsIn(input.revealed));
    forall s | s != symbol ensures Total(SymbolMatches(input, s), weight) == 0 {
      var ms := SymbolMatches(input, s);
      forall k | 0 <= k < |ms| ensures weight(ms[k]) == 0 { SymbolMatchesSound(input, s, k); }
      ZeroTotal(ms, weight);
    }
    SortedSymbolsDistinct(SymbolsIn(input.revealed));
    SortedMembers(SymbolsIn(input.revealed));
    var k :| 0 <= k < |input.revealed| && input.revealed[k] == r;
    assert input.revealed[k].order.symbol in SymbolsIn(input.revealed);
    OneSymbol(input, symbols, symbol, weight);
  }

  // ----- ranks --------------------------------------------------------------------------

  /** No NFT both buys and sells in the symbol. */
  ghost predicate NoSharedNft(rs: seq<RevealedOrder>, symbol: Symbol) {
    forall x, y :: x in rs && y in rs && x.order.symbol == y.order.symbol == symbol && x.order.side == 1 && y.order.side == 0 ==>
      x.order.nftId != y.order.nftId
  }

  lemma NoSharedDisjoint(rs: seq<RevealedOrder>, symbol: Symbol)
    requires NoSharedNft(rs, symbol)
    ensures Disjoint(Buys(rs, symbol), Sells(rs, symbol))
  {
    forall i, j | 0 <= i < |Buys(rs, symbol)| && 0 <= j < |Sells(rs, symbol)|
      ensures !SameNft(Buys(rs, symbol)[i], Sells(rs, symbol)[j])
    {
      BookMember(rs, symbol, i);
      BookMember(rs, symbol, j);
    }
  }

  /** Where a reveal stands in its book. */
  lemma Place(rs: seq<RevealedOrder>, r: RevealedOrder, side: nat, book: Book) returns (p: nat)
    requires DistinctHashes(rs) && r in rs && r.order.side == side
    requires multiset(book) == multiset(BookEntries(rs, r.order.symbol, side))
    ensures OnlyAt(book, p, r)
  {
    BookEntriesCount(rs, r.order.symbol, side, r);
    assert r in multiset(rs);
    assert r in multiset(book);
    p :| 0 <= p < |book| && book[p] == r;
    forall k | 0 <= k < |book| ensures book[k] == r <==> k == p {
      if k < p { BookHashesDistinct(rs, r.order.symbol, side, book, k, p); }
      if p < k { BookHashesDistinct(rs, r.order.symbol, side, book, p, k); }
    }
  }

  /** A higher price first; at one price the lower hash. */
  predicate BuysFirst(a: RevealedOrder, b: RevealedOrder) {
    a.order.price > b.order.price || (a.order.price == b.order.price && a.orderHash < b.orderHash)
  }

  /** A lower price first; at one price the lower hash. */
  predicate SellsFirst(a: RevealedOrder, b: RevealedOrder) {
    a.order.price < b.order.price || (a.order.price == b.order.price && a.orderHash < b.orderHash)
  }

  ghost predicate Bought(ms: seq<Match>, r: RevealedOrder) {
    exists k :: 0 <= k < |ms| && ms[k].buyer == r
  }

  ghost predicate Sold(ms: seq<Match>, r: RevealedOrder) {
    exists k :: 0 <= k < |ms| && ms[k].seller == r
  }

  /** A match of an order is one of its symbol, at its place. */
  lemma MatchPlace(input: MatchingInput, k: nat) returns (j: nat)
    requires k < |Matches(input)|
    ensures var symbol := Matches(input)[k].symbol;
      && symbol in MarketMap(input.markets)
      && var fills := SymbolFills(input, symbol, MarketMap(input.markets)[symbol]);
      && j < |fills| && fills[j].b < |Buys(input.revealed, symbol)| && fills[j].s < |Sells(input.revealed, symbol)|
      && Matches(input)[k].buyer == Buys(input.revealed, symbol)[fills[j].b]
      && Matches(input)[k].seller == Sells(input.revealed, symbol)[fills[j].s]
  {
    var s, i := AllMatchesFrom(input, SortedStrings(SymbolsIn(input.revealed)), k);
    SymbolMatchesSound(input, s, i);
    var buys, sells := Buys(input.revealed, s), Sells(input.revealed, s);
    WalkFits(buys, sells, MarketMap(input.markets)[s], Start(buys, sells));
    j := i;
  }

  /** All that an order bought in a run, it bought at its place. */
  lemma RunBought(input: MatchingInput, r: RevealedOrder, p: nat)
    requires r in input.revealed && r.order.symbol in MarketMap(input.markets)
    requires OnlyAt(Buys(input.revealed, r.order.symbol), p, r)
    ensures Total(Matches(input), BoughtBy(r))
         == FilledBuy(SymbolFills(input, r.order.symbol, MarketMap(input.markets)[r.order.symbol]), p)
  {
    var symbol := r.order.symbol;
    var buys, sells, minQuantity := Buys(input.revealed, symbol), Sells(input.revealed, symbol), MarketMap(input.markets)[symbol];
    WalkFits(buys, sells, minQuantity, Start(buys, sells));
    BoughtAt(input, symbol, buys, sells, Fills(buys, sells, minQuantity), p, r);
    RunTotal(input, r, BoughtBy(r));
  }

  lemma RunSold(input: MatchingInput, r: RevealedOrder, p: nat)
    requires r in input.revealed && r.order.symbol in MarketMap(input.markets)
    requires OnlyAt(Sells(input.revealed, r.order.symbol), p, r)
    ensures Total(Matches(input), SoldBy(r))
         == FilledSell(SymbolFills(input, r.order.symbol, MarketMap(input.markets)[r.order.symbol]), p)
  {
    var symbol := r.order.symbol;
    var buys, sells, minQuantity := Buys(input.revealed, symbol), Sells(input.revealed, symbol), MarketMap(input.markets)[symbol];
    WalkFits(buys, sells, minQuantity, Start(buys, sells));
    SoldAt(input, symbol, buys, sells, Fills(buys, sells, minQuantity), p, r);
    RunTotal(input, r, SoldBy(r));
  }

  /** Who comes first by price and hash stands before. */
  lemma BuyRank(buys: Book, p: nat, q: nat)
    requires Sorted(BuyBefore, buys) && p < |buys| && q < |buys| && BuysFirst(buys[p], buys[q])
    ensures p < q
  {
  }

  lemma SellRank(sells: Book, p: nat, q: nat)
    requires Sorted(SellBefore, sells) && p < |sells| && q < |sells| && SellsFirst(sells[p], sells[q])
    ensures p < q
  {
  }

  /** A place before a filled one is filled in full. */
  lemma RankFull(buys: Book, sells: Book, minQuantity: nat, j: nat, p: nat)
    requires Disjoint(buys, sells) && minQuantity <= 1 && j < |Fills(buys, sells, minQuantity)|
    ensures p < Fills(buys, sells, minQuantity)[j].b ==> FilledBuy(Fills(buys, sells, minQuantity), p) == Quantity(buys, p)
    ensures p < Fills(buys, sells, minQuantity)[j].s ==> FilledSell(Fills(buys, sells, minQuantity), p) == Quantity(sells, p)
  {
    WalkAccounting(buys, sells, minQuantity, Start(buys, sells));
    RankedBeforeLastAreFull(buys, sells, minQuantity);
  }

  /** Without shared NFTs and minimum, a buy is served only when every buy with a higher price, or with the same price and
      a lower hash, is served in full. */
  lemma BuyPriority(input: MatchingInput, first: RevealedOrder, later: RevealedOrder)
    requires DistinctHashes(input.revealed) && NoSharedNft(input.revealed, first.order.symbol)
    requires first.order.symbol in MarketMap(input.markets) && MarketMap(input.markets)[first.order.symbol] <= 1
    requires first in input.revealed && first.order.side == 1 && first.order.symbol == later.order.symbol
    requires BuysFirst(first, later) && Bought(Matches(input), later)
    ensures Total(Matches(input), BoughtBy(first)) == first.order.quantity
  {
    var symbol := first.order.symbol;
    var k :| 0 <= k < |Matches(input)| && Matches(input)[k].buyer == later;
    MatchesSound(input);
    assert SoundMatch(input, Matches(input)[k]);
    var j := MatchPlace(input, k);
    var p := Place(input.revealed, first, BUY, Buys(input.revealed, symbol));
    BooksSorted(input.revealed, symbol);
    BuyRank(Buys(input.revealed, symbol), p, SymbolFills(input, symbol, MarketMap(input.markets)[symbol])[j].b);
    NoSharedDisjoint(input.revealed, symbol);
    RankFull(Buys(input.revealed, symbol), Sells(input.revealed, symbol), MarketMap(input.markets)[symbol], j, p);
    RunBought(input, first, p);
  }

  /** The same for sells, with the lower price first. */
  lemma SellPriority(input: MatchingInput, first: RevealedOrder, later: RevealedOrder)
    requires DistinctHashes(input.revealed) && NoSharedNft(input.revealed, first.order.symbol)
    requires first.order.symbol in MarketMap(input.markets) && MarketMap(input.markets)[first.order.symbol] <= 1
    requires first in input.revealed && first.order.side == 0 && first.order.symbol == later.order.symbol
    requires SellsFirst(first, later) && Sold(Matches(input), later)
    ensures Total(Matches(input), SoldBy(first)) == first.order.quantity
  {
    var symbol := first.order.symbol;
    var k :| 0 <= k < |Matches(input)| && Matches(input)[k].seller == later;
    MatchesSound(input);
    assert SoundMatch(input, Matches(input)[k]);
    var j := MatchPlace(input, k);
    var p := Place(input.revealed, first, SELL, Sells(input.revealed, symbol));
    BooksSorted(input.revealed, symbol);
    SellRank(Sells(input.revealed, symbol), p, SymbolFills(input, symbol, MarketMap(input.markets)[symbol])[j].s);
    NoSharedDisjoint(input.revealed, symbol);
    RankFull(Buys(input.revealed, symbol), Sells(input.revealed, symbol), MarketMap(input.markets)[symbol], j, p);
    RunSold(input, first, p);
  }
}
