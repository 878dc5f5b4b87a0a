/** What a run looks at in a pool: the buys and sells of listed symbols, and nothing else. */
module Tradables {
  import opened Basics
  import opened Sorting
  import opened Engine
  import opened EngineFacts
  import opened RunMatching
  import opened RunFacts

  // ----- what a run looks at ------------------------------------------------------------

  /** A buy or a sell of a listed symbol. */
  predicate Tradable(r: RevealedOrder, markets: seq<MarketConfig>) {
    (r.order.side == BUY || r.order.side == SELL) && r.order.symbol in MarketMap(markets)
  }

  ghost predicate SameTradable(a: seq<RevealedOrder>, b: seq<RevealedOrder>, markets: seq<MarketConfig>) {
    forall r :: Tradable(r, markets) ==> multiset(a)[r] == multiset(b)[r]
  }

  lemma EntriesSame(a: seq<RevealedOrder>, b: seq<RevealedOrder>, markets: seq<MarketConfig>, symbol: Symbol, side: nat)
    requires SameTradable(a, b, markets) && symbol in MarketMap(markets) && (side == BUY || side == SELL)
    ensures multiset(BookEntries(a, symbol, side)) == multiset(BookEntries(b, symbol, side))
  {
    forall r ensures multiset(BookEntries(a, symbol, side))[r] == multiset(BookEntries(b, symbol, side))[r] {
      BookEntriesCount(a, symbol, side, r);
      BookEntriesCount(b, symbol, side, r);
    }
  }

  lemma SymbolSame(x: MatchingInput, y: MatchingInput, symbol: Symbol)
    requires x.batchId == y.batchId && x.poolId == y.poolId && x.markets == y.markets
    requires HashesIdentify(x.revealed) && SameTradable(x.revealed, y.revealed, x.markets)
    ensures SymbolMatches(x, symbol) == SymbolMatches(y, symbol)
  {
    if symbol in MarketMap(x.markets) {
      BookOrders();
      BookEntriesIdentify(x.revealed, symbol, BUY);
      BookEntriesIdentify(x.revealed, symbol, SELL);
      EntriesSame(x.revealed, y.revealed, x.markets, symbol, BUY);
      EntriesSame(x.revealed, y.revealed, x.markets, symbol, SELL);
      SortCanonical(BuyBefore, BookEntries(x.revealed, symbol, BUY), BookEntries(y.revealed, symbol, BUY));
      SortCanonical(SellBefore, BookEntries(x.revealed, symbol, SELL), BookEntries(y.revealed, symbol, SELL));
    }
  }

  /** The symbols that have matches. */
  function Live(input: MatchingInput, symbols: seq<Symbol>): seq<Symbol> {
    if symbols == [] then []
    else
      Live(input, symbols[..|symbols| - 1])
        + if SymbolMatches(input, symbols[|symbols| - 1]) != [] then [symbols[|symbols| - 1]] else []
  }

  lemma {:induction false} LiveMembers(input: MatchingInput, symbols: seq<Symbol>, s: Symbol)
    ensures s in Live(input, symbols) <==> s in symbols && SymbolMatches(input, s) != []
  {
    if symbols != [] {
      LiveMembers(input, symbols[..|symbols| - 1], s);
      SplitLast(symbols);
    }
  }

  lemma {:induction false} LiveMatches(input: MatchingInput, symbols: seq<Symbol>)
    ensures AllMatches(input, Live(input, symbols)) == AllMatches(input, symbols)
  {
    if symbols != [] {
      var front, last := symbols[..|symbols| - 1], symbols[|symbols| - 1];
      LiveMatches(input, front);
      if SymbolMatches(input, last) != [] {
        assert (Live(input, front) + [last])[..|Live(input, front)|] == Live(input, front);
      } else {
        assert Live(input, front) + [] == Live(input, front);
      }
    }
  }

  ghost predicate Ascending(symbols: seq<Symbol>) {
    Sorted(LexLe, symbols) && forall i, j :: 0 <= i < j < |symbols| ==> symbols[i] != symbols[j]
  }

  lemma AscendingSnoc(front: seq<Symbol>, x: Symbol)
    requires Ascending(front) && forall i :: 0 <= i < |front| ==> LexLe(front[i], x) && front[i] != x
    ensures Ascending(front + [x])
  {
  }

  lemma AscendingLast(symbols: seq<Symbol>, s: Symbol)
    requires Ascending(symbols) && symbols != [] && s in symbols[..|symbols| - 1]
    ensures LexLe(s, symbols[|symbols| - 1]) && s != symbols[|symbols| - 1]
  {
    var k :| 0 <= k < |symbols| - 1 && symbols[k] == s;
  }

  lemma {:induction false} LiveAscending(input: MatchingInput, symbols: seq<Symbol>)
    requires Ascending(symbols)
    ensures Ascending(Live(input, symbols))
  {
    if symbols != [] {
      var front, last := symbols[..|symbols| - 1], symbols[|symbols| - 1];
      LiveAscending(input, front);
      var live := Live(input, front);
      if SymbolMatches(input, last) != [] {
        forall i | 0 <= i < |live| ensures LexLe(live[i], last) && live[i] != last {
          LiveMembers(input, front, live[i]);
          AscendingLast(symbols, live[i]);
        }
        AscendingSnoc(live, last);
      } else {
        assert live + [] == live;
      }
    }
  }

  lemma {:induction false} AscendingListing(symbols: seq<Symbol>, ss: set<Symbol>)
    requires Ascending(symbols) && forall s :: s in symbols <==> s in ss
    ensures multiset(symbols) == multiset(ss)
  {
    forall s ensures multiset(symbols)[s] == multiset(ss)[s] {
      OnceIn(symbols, s);
    }
  }

  lemma {:induction false} OnceIn<T>(s: seq<T>, x: T)
    requires forall i, j :: 0 <= i < j < |s| ==> s[i] != s[j]
    ensures multiset(s)[x] == if x in s then 1 else 0
  {
    if s != [] {
      OnceIn(s[..|s| - 1], x);
      SplitLast(s);
    }
  }

  lemma SortedStringsAscending(ss: set<Symbol>)
    ensures Ascending(SortedStrings(ss))
  {
    LexTotalPreorder();
    SortSorted(LexLe, Listing(ss));
    SortedSymbolsDistinct(ss);
  }

  lemma AscendingUnique(a: seq<Symbol>, b: seq<Symbol>)
    requires Ascending(a) && Ascending(b) && forall s :: s in a <==> s in b
    ensures a == b
  {
    var ss := set s | s in b;
    AscendingListing(a, ss);
    AscendingListing(b, ss);
    forall i, j | 0 <= i < |a| && 0 <= j < |a| && LexLe(a[i], a[j]) && LexLe(a[j], a[i]) ensures a[i] == a[j] { LexTotal(a[i], a[j]); }
    SortedUnique(LexLe, a, b);
  }

  lemma LiveRevealed(input: MatchingInput, s: Symbol)
    ensures SymbolMatches(input, s) != [] ==> s in SymbolsIn(input.revealed)
  {
    if SymbolMatches(input, s) != [] {
      SymbolMatchesSound(input, s, 0);
      var m := SymbolMatches(input, s)[0];
      var k :| 0 <= k < |input.revealed| && input.revealed[k] == m.buyer;
      assert input.revealed[k].order.symbol in SymbolsIn(input.revealed);
    }
  }

  /** A run sees nothing of a pool but its buys and sells of listed symbols. */
  lemma TradableDecide(x: MatchingInput, y: MatchingInput)
    requires x.batchId == y.batchId && x.poolId == y.poolId && x.markets == y.markets
    requires HashesIdentify(x.revealed) && SameTradable(x.revealed, y.revealed, x.markets)
    ensures Matches(x) == Matches(y)
  {
    forall s ensures SymbolMatches(x, s) == SymbolMatches(y, s) { SymbolSame(x, y, s); }
    var sx, sy := SortedStrings(SymbolsIn(x.revealed)), SortedStrings(SymbolsIn(y.revealed));
    SortedStringsAscending(SymbolsIn(x.revealed));
    SortedStringsAscending(SymbolsIn(y.revealed));
    LiveAscending(x, sx);
    LiveAscending(y, sy);
    forall s ensures s in Live(x, sx) <==> s in Live(y, sy) {
      SortedMembers(SymbolsIn(x.revealed));
      SortedMembers(SymbolsIn(y.revealed));
      LiveMembers(x, sx, s);
      LiveMembers(y, sy, s);
      LiveRevealed(x, s);
      LiveRevealed(y, s);
    }
    AscendingUnique(Live(x, sx), Live(y, sy));
    LiveMatches(x, sx);
    LiveMatches(y, sy);
    AllMatchesAgree(x, y, Live(x, sx));
  }
}
