/** What a whole run over all symbols guarantees about its match list. */
module RunFacts {
  import opened Basics
  import opened Sorting
  import opened Sums
  import opened Engine
  import opened EngineFacts
  import opened RunMatching

  lemma BooksSorted(rs: seq<RevealedOrder>, symbol: Symbol)
    ensures SortedBooks(Buys(rs, symbol), Sells(rs, symbol))
  {
    BookOrders();
    SortSorted(BuyBefore, BookEntries(rs, symbol, BUY));
    SortSorted(SellBefore, BookEntries(rs, symbol, SELL));
  }

  /** Every entry of a sorted book is a reveal of that symbol and side. */
  lemma BookMember(rs: seq<RevealedOrder>, symbol: Symbol, k: nat)
    ensures k < |Buys(rs, symbol)| ==>
      var r := Buys(rs, symbol)[k]; r in rs && r.order.symbol == symbol && r.order.side == BUY
    ensures k < |Sells(rs, symbol)| ==>
      var r := Sells(rs, symbol)[k]; r in rs && r.order.symbol == symbol && r.order.side == SELL
  {
    if k < |Buys(rs, symbol)| {
      var r := Buys(rs, symbol)[k];
      assert r in multiset(Buys(rs, symbol));
      BookEntriesCount(rs, symbol, BUY, r);
      assert r in multiset(rs);
    }
    if k < |Sells(rs, symbol)| {
      var r := Sells(rs, symbol)[k];
      assert r in multiset(Sells(rs, symbol));
      BookEntriesCount(rs, symbol, SELL, r);
      assert r in multiset(rs);
    }
  }

  /** A match that a run may emit. */
  ghost predicate SoundMatch(input: MatchingInput, m: Match) {
    && m.batchId == input.batchId && m.poolId == input.poolId
    && m.symbol in MarketMap(input.markets)
    && m.buyer in input.revealed && m.seller in input.revealed
    && m.buyer.order.symbol == m.symbol == m.seller.order.symbol
    && m.buyer.order.side == BUY && m.seller.order.side == SELL
    && !SameNft(m.buyer, m.seller) && Crosses(m.buyer, m.seller)
    && MarketMap(input.markets)[m.symbol] <= m.fillQuantity
    && m == MatchOf(m.batchId, m.poolId, m.symbol, m.buyer, m.seller, m.fillQuantity)
    && FairPrice(m) && HalfwayPrice(m) && LowerHashPays(m) && Committing(m)
  }

  /** The price lies between the limits exactly when their sum does not wrap. */
  ghost predicate FairPrice(m: Match) {
    m.seller.order.price <= m.settlementPrice <= m.buyer.order.price <==>
      m.buyer.order.price + m.seller.order.price < TWO64
  }

  /** The price is halfway between the limits, rounded down; a sum that reaches 2^64 loses just that. */
  ghost predicate HalfwayPrice(m: Match) {
    var sum := m.buyer.order.price + m.seller.order.price;
    if sum < 0x1_0000_0000_0000_0000 then 0 <= sum - 2 * m.settlementPrice <= 1
    else 0 <= sum - 0x1_0000_0000_0000_0000 - 2 * m.settlementPrice <= 1
  }

  /** The match hash commits to the batch, to buyer and seller in that order, and to the fill. */
  ghost predicate Committing(m: Match) {
    && m.matchHash.batchId == m.batchId && m.matchHash.fillQuantity == m.fillQuantity
    && m.matchHash.buyerHash == m.buyer.orderHash && m.matchHash.sellerHash == m.seller.orderHash
  }

  /** Gas is paid by the party with the lower order hash, and by the seller if they are equal. */
  ghost predicate LowerHashPays(m: Match) {
    && (m.buyer.orderHash < m.seller.orderHash ==> m.gasPayerNftId == m.buyer.order.nftId)
    && (m.seller.orderHash <= m.buyer.orderHash ==> m.gasPayerNftId == m.seller.order.nftId)
  }

  lemma PriceAndPayer(m: Match)
    requires Crosses(m.buyer, m.seller) && m == MatchOf(m.batchId, m.poolId, m.symbol, m.buyer, m.seller, m.fillQuantity)
    ensures FairPrice(m) && HalfwayPrice(m) && LowerHashPays(m) && Committing(m)
  {
    MidpointBetweenLimits(m.buyer, m.seller);
  }

  lemma SymbolMatchesSound(input: MatchingInput, symbol: Symbol, k: nat)
    requires k < |SymbolMatches(input, symbol)|
    ensures SoundMatch(input, SymbolMatches(input, symbol)[k]) && SymbolMatches(input, symbol)[k].symbol == symbol
  {
    var buys, sells := Buys(input.revealed, symbol), Sells(input.revealed, symbol);
    var minQuantity := MarketMap(input.markets)[symbol];
    FillAccounting(buys, sells, minQuantity);
    var f := Fills(buys, sells, minQuantity)[k];
    BookMember(input.revealed, symbol, f.b);
    BookMember(input.revealed, symbol, f.s);
    PriceAndPayer(SymbolMatches(input, symbol)[k]);
  }

  /** Every match of a run is one of some symbol. */
  lemma {:induction false} AllMatchesFrom(input: MatchingInput, symbols: seq<Symbol>, k: nat) returns (s: Symbol, j: nat)
    requires k < |AllMatches(input, symbols)|
    ensures s in symbols && j < |SymbolMatches(input, s)| && AllMatches(input, symbols)[k] == SymbolMatches(input, s)[j]
  {
    var front, last := symbols[..|symbols| - 1], symbols[|symbols| - 1];
    var n := |AllMatches(input, front)|;
    if k < n {
      s, j := AllMatchesFrom(input, front, k);
      assert AllMatches(input, symbols)[k] == AllMatches(input, front)[k];
    } else {
      s, j := last, k - n;
      assert AllMatches(input, symbols)[k] == SymbolMatches(input, last)[k - n];
    }
  }

  lemma AllMatchesSound(input: MatchingInput, symbols: seq<Symbol>, k: nat)
    requires k < |AllMatches(input, symbols)|
    ensures SoundMatch(input, AllMatches(input, symbols)[k]) && AllMatches(input, symbols)[k].symbol in symbols
  {
    var s, j := AllMatchesFrom(input, symbols, k);
    SymbolMatchesSound(input, s, j);
  }

  /** No self-trade, no wrong symbol or side, no fill below the market minimum ever leaves a run. */
  lemma MatchesSound(input: MatchingInput)
    ensures forall k :: 0 <= k < |Matches(input)| ==> SoundMatch(input, Matches(input)[k])
  {
    var symbols := SortedStrings(SymbolsIn(input.revealed));
    forall k | 0 <= k < |Matches(input)| ensures SoundMatch(input, Matches(input)[k]) {
      AllMatchesSound(input, symbols, k);
    }
  }

  lemma LastIsLatest(symbols: seq<Symbol>, s: Symbol)
    requires Sorted(LexLe, symbols) && s in symbols
    ensures s == symbols[|symbols| - 1] || LexLe(s, symbols[|symbols| - 1])
  {
    var i :| 0 <= i < |symbols| && symbols[i] == s;
  }

  /** The last match of a run is of a symbol no earlier than the others. */
  lemma {:induction false} SymbolsInOrder(input: MatchingInput, symbols: seq<Symbol>, k: nat, l: nat)
    requires Sorted(LexLe, symbols) && k < l < |AllMatches(input, symbols)|
    ensures var a, b := AllMatches(input, symbols)[k].symbol, AllMatches(input, symbols)[l].symbol; a == b || LexLe(a, b)
  {
    var front, last := symbols[..|symbols| - 1], symbols[|symbols| - 1];
    var n := |AllMatches(input, front)|;
    if l < n {
      assert AllMatches(input, symbols)[k] == AllMatches(input, front)[k];
      assert AllMatches(input, symbols)[l] == AllMatches(input, front)[l];
      SymbolsInOrder(input, front, k, l);
    } else {
      LastSymbol(input, symbols, l);
      AllMatchesSound(input, symbols, k);
      LastIsLatest(symbols, AllMatches(input, symbols)[k].symbol);
    }
  }

  lemma LastSymbol(input: MatchingInput, symbols: seq<Symbol>, l: nat)
    requires symbols != [] && |AllMatches(input, symbols[..|symbols| - 1])| <= l < |AllMatches(input, symbols)|
    ensures AllMatches(input, symbols)[l].symbol == symbols[|symbols| - 1]
  {
    var n, last := |AllMatches(input, symbols[..|symbols| - 1])|, symbols[|symbols| - 1];
    assert AllMatches(input, symbols)[l] == SymbolMatches(input, last)[l - n];
    SymbolMatchesSound(input, last, l - n);
  }

  /** The first symbol is a proper prefix of the second, or smaller at the first place where they differ. */
  ghost predicate Earlier(a: Symbol, b: Symbol) {
    exists n: nat :: n <= |a| && n < |b| && a[..n] == b[..n] && (n == |a| || a[n] < b[n])
  }

  lemma MatchesInOrder(input: MatchingInput)
    ensures forall k, l :: 0 <= k < l < |Matches(input)| ==>
      Matches(input)[k].symbol == Matches(input)[l].symbol || Earlier(Matches(input)[k].symbol, Matches(input)[l].symbol)
  {
    var ss := SymbolsIn(input.revealed);
    LexTotalPreorder();
    SortSorted(LexLe, Listing(ss));
    forall k, l | 0 <= k < l < |Matches(input)|
      ensures Matches(input)[k].symbol == Matches(input)[l].symbol || Earlier(Matches(input)[k].symbol, Matches(input)[l].symbol)
    {
      SymbolsInOrder(input, SortedStrings(ss), k, l);
      LexMeaning(Matches(input)[k].symbol, Matches(input)[l].symbol);
    }
  }

  /** The lexicographic order by its first difference. */
  lemma {:induction false} LexMeaning(a: Symbol, b: Symbol)
    ensures LexLe(a, b) ==> a == b || Earlier(a, b)
  {
    if LexLe(a, b) {
      if a == [] {
        if b != [] { assert a[..0] == b[..0]; }
      } else if a[0] < b[0] {
        assert a[..0] == b[..0];
      } else {
        LexMeaning(a[1..], b[1..]);
        assert a == [a[0]] + a[1..] && b == [b[0]] + b[1..];
        if a != b {
          var n: nat :| n <= |a[1..]| && n < |b[1..]| && a[1..][..n] == b[1..][..n] && (n == |a[1..]| || a[1..][n] < b[1..][n]);
          assert a[..n + 1] == [a[0]] + a[1..][..n] && b[..n + 1] == [b[0]] + b[1..][..n];
        }
      }
    }
  }

  // ----- distinct match hashes --------------------------------------------------

  ghost predicate DistinctHashes(rs: seq<RevealedOrder>) {
    forall i, j :: 0 <= i < j < |rs| ==> rs[i].orderHash != rs[j].orderHash
  }

  ghost predicate DistinctMatches(ms: seq<Match>) {
    forall k, l :: 0 <= k < l < |ms| ==> ms[k].matchHash != ms[l].matchHash
  }

  lemma {:induction false} MemberOnce(rs: seq<RevealedOrder>, r: RevealedOrder)
    requires DistinctHashes(rs)
    ensures multiset(rs)[r] <= 1
  {
    if rs != [] {
      var front := rs[..|rs| - 1];
      assert rs == front + [rs[|rs| - 1]];
      MemberOnce(front, r);
      if rs[|rs| - 1] == r {
        assert r !in front;
      }
    }
  }

  /** A book drawn from reveals with distinct hashes lists each hash once. */
  lemma BookHashesDistinct(rs: seq<RevealedOrder>, symbol: Symbol, side: nat, book: Book, i: nat, j: nat)
    requires DistinctHashes(rs) && multiset(book) == multiset(BookEntries(rs, symbol, side))
    requires i < j < |book|
    ensures book[i].orderHash != book[j].orderHash
  {
    var a, b := book[i], book[j];
    assert a in multiset(book) && b in multiset(book);
    BookEntriesCount(rs, symbol, side, a);
    BookEntriesCount(rs, symbol, side, b);
    assert a in multiset(rs) && b in multiset(rs);
    MemberOnce(rs, a);
    CountedTwice(book, i, j);
  }

  lemma SymbolMatchesDistinct(input: MatchingInput, symbol: Symbol)
    requires DistinctHashes(input.revealed)
    ensures DistinctMatches(SymbolMatches(input, symbol))
  {
    var ms := SymbolMatches(input, symbol);
    if ms != [] {
      var buys, sells := Buys(input.revealed, symbol), Sells(input.revealed, symbol);
      var minQuantity := MarketMap(input.markets)[symbol];
      var fills := Fills(buys, sells, minQuantity);
      WalkAccounting(buys, sells, minQuantity, Start(buys, sells));
      forall k, l | 0 <= k < l < |ms| ensures ms[k].matchHash != ms[l].matchHash {
        assert fills[k].b < fills[l].b || fills[k].s < fills[l].s;
        if fills[k].b < fills[l].b {
          BookHashesDistinct(input.revealed, symbol, BUY, buys, fills[k].b, fills[l].b);
        } else {
          BookHashesDistinct(input.revealed, symbol, SELL, sells, fills[k].s, fills[l].s);
        }
      }
    }
  }

  lemma {:induction false} AllMatchesDistinct(input: MatchingInput, symbols: seq<Symbol>)
    requires DistinctHashes(input.revealed)
    requires forall i, j :: 0 <= i < j < |symbols| ==> symbols[i] != symbols[j]
    ensures DistinctMatches(AllMatches(input, symbols))
  {
    if symbols != [] {
      var front, last := symbols[..|symbols| - 1], symbols[|symbols| - 1];
      AllMatchesDistinct(input, front);
      SymbolMatchesDistinct(input, last);
      var a, b := AllMatches(input, front), SymbolMatches(input, last);
      forall k, l | 0 <= k < |a| && 0 <= l < |b| ensures a[k].matchHash != b[l].matchHash {
        AllMatchesSound(input, front, k);
        SymbolMatchesSound(input, last, l);
        assert a[k].buyer != b[l].buyer;
      }
    }
  }

  lemma SortedSymbolsDistinct(ss: set<Symbol>)
    ensures var symbols := SortedStrings(ss); forall i, j :: 0 <= i < j < |symbols| ==> symbols[i] != symbols[j]
  {
    SortedMembers(ss);
    ListingDistinct(SortedStrings(ss), ss);
  }

  /** Reveals with distinct hashes never yield the same match hash twice, over all symbols. */
  lemma MatchHashesDistinct(input: MatchingInput)
    requires DistinctHashes(input.revealed)
    ensures DistinctMatches(Matches(input))
  {
    SortedSymbolsDistinct(SymbolsIn(input.revealed));
    AllMatchesDistinct(input, SortedStrings(SymbolsIn(input.revealed)));
  }
}
