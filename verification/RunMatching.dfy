/** The top-level run over all symbols, and its independence of the order in which reveals and markets arrive. */
module RunMatching {
  import opened Basics
  import opened Sorting
  import opened Engine

  // ----- grouping -----------------------------------------------------------

  function OfSymbol(rs: seq<RevealedOrder>, symbol: Symbol): seq<RevealedOrder> {
    if rs == [] then []
    else OfSymbol(rs[..|rs| - 1], symbol) + if rs[|rs| - 1].order.symbol == symbol then [rs[|rs| - 1]] else []
  }

  function OfSide(rs: seq<RevealedOrder>, side: nat): seq<RevealedOrder> {
    if rs == [] then []
    else OfSide(rs[..|rs| - 1], side) + if rs[|rs| - 1].order.side == side then [rs[|rs| - 1]] else []
  }

  function Buys(rs: seq<RevealedOrder>, symbol: Symbol): Book {
    Sort(BuyBefore, OfSide(OfSymbol(rs, symbol), BUY))
  }

  function Sells(rs: seq<RevealedOrder>, symbol: Symbol): Book {
    Sort(SellBefore, OfSide(OfSymbol(rs, symbol), SELL))
  }

  function SymbolsIn(rs: seq<RevealedOrder>): set<Symbol> {
    set k | 0 <= k < |rs| :: rs[k].order.symbol
  }

  /** The lookup table of the markets; of two entries for one symbol the later one stays. */
  function MarketMap(markets: seq<MarketConfig>): map<Symbol, U64> {
    if markets == [] then map[]
    else MarketMap(markets[..|markets| - 1])[markets[|markets| - 1].symbol := markets[|markets| - 1].minQuantity]
  }

  // ----- what a run computes -------------------------------------------------

  function SymbolFills(input: MatchingInput, symbol: Symbol, minQuantity: U64): seq<Fill> {
    Fills(Buys(input.revealed, symbol), Sells(input.revealed, symbol), minQuantity)
  }

  /** The matches of one symbol; none when the symbol has no market. */
  function SymbolMatches(input: MatchingInput, symbol: Symbol): seq<Match> {
    var markets := MarketMap(input.markets);
    if symbol !in markets then []
    else
      var buys, sells := Buys(input.revealed, symbol), Sells(input.revealed, symbol);
      WalkFits(buys, sells, markets[symbol], Start(buys, sells));
      MatchesOf(input.batchId, input.poolId, symbol, buys, sells, SymbolFills(input, symbol, markets[symbol]))
  }

  function AllMatches(input: MatchingInput, symbols: seq<Symbol>): seq<Match> {
    if symbols == [] then []
    else AllMatches(input, symbols[..|symbols| - 1]) + SymbolMatches(input, symbols[|symbols| - 1])
  }

  /** The match list of a run: symbol by symbol in lexicographic order. */
  ghost function Matches(input: MatchingInput): seq<Match> {
    AllMatches(input, SortedStrings(SymbolsIn(input.revealed)))
  }

  /** A market that is listed again counts as listed last. */
  lemma {:induction false} LastListingCounts(markets: seq<MarketConfig>, k: nat)
    requires k < |markets| && forall l :: k < l < |markets| ==> markets[l].symbol != markets[k].symbol
    ensures markets[k].symbol in MarketMap(markets) && MarketMap(markets)[markets[k].symbol] == markets[k].minQuantity
  {
    if k < |markets| - 1 {
      var front := markets[..|markets| - 1];
      assert front[k] == markets[k];
      LastListingCounts(front, k);
    }
  }

  method BuildMarketMap(markets: seq<MarketConfig>) returns (m: map<Symbol, U64>)
    ensures m == MarketMap(markets)
  {
    m := map[];
    for k := 0 to |markets|
      invariant m == MarketMap(markets[..k])
    {
      assert markets[..k + 1][..k] == markets[..k];
      m := m[markets[k].symbol := markets[k].minQuantity];
    }
    assert markets[..|markets|] == markets;
  }

  method GroupBySymbol(rs: seq<RevealedOrder>) returns (groups: map<Symbol, seq<RevealedOrder>>)
    ensures groups.Keys == SymbolsIn(rs)
    ensures forall symbol :: symbol in groups ==> groups[symbol] == OfSymbol(rs, symbol)
  {
    groups := map[];
    for k := 0 to |rs|
      invariant groups.Keys == SymbolsIn(rs[..k])
      invariant forall symbol :: symbol in groups ==> groups[symbol] == OfSymbol(rs[..k], symbol)
    {
      var symbol := rs[k].order.symbol;
      assert rs[..k + 1][..k] == rs[..k];
      assert SymbolsIn(rs[..k + 1]) == SymbolsIn(rs[..k]) + {symbol} by {
        assert forall s :: s in SymbolsIn(rs[..k]) ==> s in SymbolsIn(rs[..k + 1]) by {
          assert forall m :: 0 <= m < k ==> rs[..k + 1][m] == rs[..k][m];
        }
        assert rs[..k + 1][k] == rs[k];
      }
      if symbol !in groups { OfSymbolAbsent(rs[..k], symbol); }
      var group := if symbol in groups then groups[symbol] else [];
      groups := groups[symbol := group + [rs[k]]];
    }
    assert rs[..|rs|] == rs;
  }

  lemma {:induction false} OfSymbolAbsent(rs: seq<RevealedOrder>, symbol: Symbol)
    requires symbol !in SymbolsIn(rs)
    ensures OfSymbol(rs, symbol) == []
  {
    if rs != [] {
      assert rs[|rs| - 1].order.symbol in SymbolsIn(rs);
      var front := rs[..|rs| - 1];
      forall k | 0 <= k < |front| ensures front[k].order.symbol != symbol {
        assert rs[k].order.symbol in SymbolsIn(rs);
      }
      OfSymbolAbsent(front, symbol);
    }
  }

  method SortedKeys<V>(groups: map<Symbol, V>) returns (symbols: seq<Symbol>)
    ensures symbols == SortedStrings(groups.Keys)
  {
    var left := groups.Keys;
    symbols := [];
    while left != {}
      invariant left <= groups.Keys
      invariant multiset(symbols) == multiset(groups.Keys - left)
      decreases left
    {
      var symbol :| symbol in left;
      assert groups.Keys - (left - {symbol}) == (groups.Keys - left) + {symbol};
      symbols, left := symbols + [symbol], left - {symbol};
    }
    assert groups.Keys - left == groups.Keys;
    SortedStringsCanonical(groups.Keys, symbols);
    symbols := Sort(LexLe, symbols);
  }

  method SplitSide(rs: seq<RevealedOrder>, side: nat) returns (book: array<RevealedOrder>)
    ensures book[..] == OfSide(rs, side)
    ensures fresh(book)
  {
    var kept := OfSide(rs, side);
    book := new RevealedOrder[|kept|](k requires 0 <= k < |kept| => kept[k]);
    assert book[..] == kept;
  }

  lemma AllMatchesNext(input: MatchingInput, symbols: seq<Symbol>, k: nat)
    requires k < |symbols|
    ensures AllMatches(input, symbols[..k + 1]) == AllMatches(input, symbols[..k]) + SymbolMatches(input, symbols[k])
  {
    assert symbols[..k + 1][..k] == symbols[..k];
  }

  /** The books of one group, sorted and walked. */
  method MatchGroup(input: MatchingInput, symbol: Symbol, group: seq<RevealedOrder>, minQuantity: U64) returns (found: seq<Match>)
    requires group == OfSymbol(input.revealed, symbol)
    requires symbol in MarketMap(input.markets) && MarketMap(input.markets)[symbol] == minQuantity
    ensures found == SymbolMatches(input, symbol)
  {
    var buys := SplitSide(group, BUY);
    var sells := SplitSide(group, SELL);
    SortOrders(buys, sells);
    found := GenerateMatches(input.batchId, input.poolId, symbol, buys[..], sells[..], minQuantity);
  }

  method RunMatching(input: MatchingInput) returns (matches: seq<Match>)
    ensures matches == Matches(input)
  {
    var markets := BuildMarketMap(input.markets);
    var bySymbol := GroupBySymbol(input.revealed);
    var symbols := SortedKeys(bySymbol);
    SortedMembers(bySymbol.Keys);

    matches := [];
    for k := 0 to |symbols|
      invariant matches == AllMatches(input, symbols[..k])
    {
      var symbol := symbols[k];
      AllMatchesNext(input, symbols, k);
      assert symbol in symbols;
      if symbol in markets {
        var found := MatchGroup(input, symbol, bySymbol[symbol], markets[symbol]);
        matches := matches + found;
      }
    }
    assert symbols[..|symbols|] == symbols;
  }

  lemma SortedMembers(ss: set<string>)
    ensures multiset(SortedStrings(ss)) == multiset(ss)
    ensures forall s :: s in SortedStrings(ss) <==> s in ss
  {
    assert forall s :: s in SortedStrings(ss) <==> s in multiset(SortedStrings(ss));
  }

  // ----- order independence ---------------------------------------------------

  /** Equal hashes mean equal reveals. */
  ghost predicate HashesIdentify(rs: seq<RevealedOrder>) {
    forall i, j :: 0 <= i < |rs| && 0 <= j < |rs| && rs[i].orderHash == rs[j].orderHash ==> rs[i] == rs[j]
  }

  ghost predicate DistinctSymbols(markets: seq<MarketConfig>) {
    forall i, j :: 0 <= i < j < |markets| ==> markets[i].symbol != markets[j].symbol
  }

  lemma {:induction false} OfSymbolCount(rs: seq<RevealedOrder>, symbol: Symbol, r: RevealedOrder)
    ensures multiset(OfSymbol(rs, symbol))[r] == if r.order.symbol == symbol then multiset(rs)[r] else 0
  {
    if rs != [] {
      OfSymbolCount(rs[..|rs| - 1], symbol, r);
      assert rs == rs[..|rs| - 1] + [rs[|rs| - 1]];
    }
  }

  lemma {:induction false} OfSideCount(rs: seq<RevealedOrder>, side: nat, r: RevealedOrder)
    ensures multiset(OfSide(rs, side))[r] == if r.order.side == side then multiset(rs)[r] else 0
  {
    if rs != [] {
      OfSideCount(rs[..|rs| - 1], side, r);
      assert rs == rs[..|rs| - 1] + [rs[|rs| - 1]];
    }
  }

  /** The entries of one side and symbol. */
  function BookEntries(rs: seq<RevealedOrder>, symbol: Symbol, side: nat): Book {
    OfSide(OfSymbol(rs, symbol), side)
  }

  lemma BookEntriesCount(rs: seq<RevealedOrder>, symbol: Symbol, side: nat, r: RevealedOrder)
    ensures multiset(BookEntries(rs, symbol, side))[r]
         == if r.order.symbol == symbol && r.order.side == side then multiset(rs)[r] else 0
  {
    OfSymbolCount(rs, symbol, r);
    OfSideCount(OfSymbol(rs, symbol), side, r);
  }

  lemma BookEntriesPermuted(a: seq<RevealedOrder>, b: seq<RevealedOrder>, symbol: Symbol, side: nat)
    requires multiset(OfSymbol(a, symbol)) == multiset(OfSymbol(b, symbol))
    ensures multiset(BookEntries(a, symbol, side)) == multiset(BookEntries(b, symbol, side))
  {
    forall r ensures multiset(BookEntries(a, symbol, side))[r] == multiset(BookEntries(b, symbol, side))[r] {
      OfSideCount(OfSymbol(a, symbol), side, r);
      OfSideCount(OfSymbol(b, symbol), side, r);
    }
  }

  lemma BookEntriesIdentify(rs: seq<RevealedOrder>, symbol: Symbol, side: nat)
    requires HashesIdentify(rs)
    ensures HashesIdentify(BookEntries(rs, symbol, side))
  {
    var book := BookEntries(rs, symbol, side);
    forall k | 0 <= k < |book| ensures book[k] in rs {
      BookEntriesCount(rs, symbol, side, book[k]);
      assert book[k] in multiset(book);
      assert book[k] in multiset(rs);
    }
  }

  /** The sorted books of a symbol depend only on which reveals there are. */
  lemma BooksCanonical(a: seq<RevealedOrder>, b: seq<RevealedOrder>, symbol: Symbol)
    requires HashesIdentify(a) && multiset(OfSymbol(a, symbol)) == multiset(OfSymbol(b, symbol))
    ensures Buys(a, symbol) == Buys(b, symbol) && Sells(a, symbol) == Sells(b, symbol)
  {
    BookOrders();
    BookEntriesIdentify(a, symbol, BUY);
    BookEntriesIdentify(a, symbol, SELL);
    BookEntriesPermuted(a, b, symbol, BUY);
    BookEntriesPermuted(a, b, symbol, SELL);
    SortCanonical(BuyBefore, BookEntries(a, symbol, BUY), BookEntries(b, symbol, BUY));
    SortCanonical(SellBefore, BookEntries(a, symbol, SELL), BookEntries(b, symbol, SELL));
  }

  /** With distinct symbols the lookup table is just the set of the markets. */
  lemma {:induction false} MarketMapLookup(markets: seq<MarketConfig>, symbol: Symbol, q: U64)
    requires DistinctSymbols(markets)
    ensures symbol in MarketMap(markets) && MarketMap(markets)[symbol] == q <==> MarketConfig(symbol, q) in multiset(markets)
  {
    if markets != [] {
      var front, last := markets[..|markets| - 1], markets[|markets| - 1];
      assert markets == front + [last];
      MarketMapLookup(front, symbol, q);
      forall k | 0 <= k < |front| ensures front[k].symbol != last.symbol {
        assert front[k] == markets[k];
      }
    }
  }

  lemma MarketMapCanonical(a: seq<MarketConfig>, b: seq<MarketConfig>)
    requires DistinctSymbols(a) && DistinctSymbols(b) && multiset(a) == multiset(b)
    ensures MarketMap(a) == MarketMap(b)
  {
    var ma, mb := MarketMap(a), MarketMap(b);
    forall symbol ensures symbol in ma <==> symbol in mb {
      if symbol in ma { MarketMapLookup(a, symbol, ma[symbol]); MarketMapLookup(b, symbol, ma[symbol]); }
      if symbol in mb { MarketMapLookup(a, symbol, mb[symbol]); MarketMapLookup(b, symbol, mb[symbol]); }
    }
    forall symbol | symbol in ma ensures ma[symbol] == mb[symbol] {
      MarketMapLookup(a, symbol, ma[symbol]);
      MarketMapLookup(b, symbol, ma[symbol]);
    }
  }

  lemma SymbolsCanonical(a: seq<RevealedOrder>, b: seq<RevealedOrder>)
    requires multiset(a) == multiset(b)
    ensures SymbolsIn(a) == SymbolsIn(b)
  {
    forall k | 0 <= k < |a| ensures a[k].order.symbol in SymbolsIn(b) {
      assert a[k] in multiset(b);
      var m :| 0 <= m < |b| && b[m] == a[k];
    }
    forall k | 0 <= k < |b| ensures b[k].order.symbol in SymbolsIn(a) {
      assert b[k] in multiset(a);
      var m :| 0 <= m < |a| && a[m] == b[k];
    }
  }

  /** The matches of a symbol depend only on the reveals of that symbol and its market entry. */
  lemma SymbolIsolation(x: MatchingInput, y: MatchingInput, symbol: Symbol)
    requires x.batchId == y.batchId && x.poolId == y.poolId && HashesIdentify(x.revealed)
    requires multiset(OfSymbol(x.revealed, symbol)) == multiset(OfSymbol(y.revealed, symbol))
    requires var mx, my := MarketMap(x.markets), MarketMap(y.markets);
      (symbol in mx <==> symbol in my) && (symbol in mx ==> mx[symbol] == my[symbol])
    ensures SymbolMatches(x, symbol) == SymbolMatches(y, symbol)
  {
    BooksCanonical(x.revealed, y.revealed, symbol);
  }

  lemma {:induction false} AllMatchesAgree(x: MatchingInput, y: MatchingInput, symbols: seq<Symbol>)
    requires forall symbol :: SymbolMatches(x, symbol) == SymbolMatches(y, symbol)
    ensures AllMatches(x, symbols) == AllMatches(y, symbols)
  {
    if symbols != [] { AllMatchesAgree(x, y, symbols[..|symbols| - 1]); }
  }

  /** Every node with the same reveals and markets, in whatever order, computes the same list. */
  lemma OrderIndependence(x: MatchingInput, y: MatchingInput)
    requires x.batchId == y.batchId && x.poolId == y.poolId
    requires HashesIdentify(x.revealed) && multiset(x.revealed) == multiset(y.revealed)
    requires MarketMap(x.markets) == MarketMap(y.markets)
    ensures Matches(x) == Matches(y)
  {
    SymbolsCanonical(x.revealed, y.revealed);
    forall symbol ensures SymbolMatches(x, symbol) == SymbolMatches(y, symbol) {
      forall r ensures multiset(OfSymbol(x.revealed, symbol))[r] == multiset(OfSymbol(y.revealed, symbol))[r] {
        OfSymbolCount(x.revealed, symbol, r);
        OfSymbolCount(y.revealed, symbol, r);
      }
      SymbolIsolation(x, y, symbol);
    }
    AllMatchesAgree(x, y, SortedStrings(SymbolsIn(x.revealed)));
  }

  lemma MarketOrderIndependence(x: MatchingInput, y: MatchingInput)
    requires x.batchId == y.batchId && x.poolId == y.poolId
    requires HashesIdentify(x.revealed) && multiset(x.revealed) == multiset(y.revealed)
    requires DistinctSymbols(x.markets) && DistinctSymbols(y.markets) && multiset(x.markets) == multiset(y.markets)
    ensures Matches(x) == Matches(y)
  {
    MarketMapCanonical(x.markets, y.markets);
    OrderIndependence(x, y);
  }
}
