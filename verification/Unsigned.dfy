/** Signatures decide nothing: a run on the same orders under other signatures finds the same matches. */
module Unsigned {
  import opened Basics
  import opened Sorting
  import opened Engine
  import opened RunMatching

  function Bare(r: RevealedOrder): RevealedOrder {
    r.(signature := [])
  }

  function BareAll(rs: seq<RevealedOrder>): seq<RevealedOrder> {
    if rs == [] then [] else BareAll(rs[..|rs| - 1]) + [Bare(rs[|rs| - 1])]
  }

  function BareMatch(m: Match): Match {
    m.(buyer := Bare(m.buyer), seller := Bare(m.seller))
  }

  function BareMatches(ms: seq<Match>): seq<Match> {
    if ms == [] then [] else BareMatches(ms[..|ms| - 1]) + [BareMatch(ms[|ms| - 1])]
  }

  function BareInput(input: MatchingInput): MatchingInput {
    input.(revealed := BareAll(input.revealed))
  }

  lemma {:induction false} BareAt(rs: seq<RevealedOrder>)
    ensures |BareAll(rs)| == |rs| && forall k :: 0 <= k < |rs| ==> BareAll(rs)[k] == Bare(rs[k])
  {
    if rs != [] { BareAt(rs[..|rs| - 1]); }
  }

  lemma BareSnoc(rs: seq<RevealedOrder>, r: RevealedOrder)
    ensures BareAll(rs + [r]) == BareAll(rs) + [Bare(r)]
  {
    assert (rs + [r])[..|rs|] == rs;
  }

  lemma {:induction false} BareMatchAt(ms: seq<Match>)
    ensures |BareMatches(ms)| == |ms| && forall k :: 0 <= k < |ms| ==> BareMatches(ms)[k] == BareMatch(ms[k])
  {
    if ms != [] { BareMatchAt(ms[..|ms| - 1]); }
  }

  lemma {:induction false} BareMatchesAppend(a: seq<Match>, b: seq<Match>)
    ensures BareMatches(a + b) == BareMatches(a) + BareMatches(b)
  {
    if b == [] {
      assert a + b == a;
    } else {
      var front := b[..|b| - 1];
      assert (a + b)[..|a + b| - 1] == a + front;
      BareMatchesAppend(a, front);
    }
  }

  // ----- sorting and grouping --------------------------------------------------------------

  /** The order does not look at signatures. */
  ghost predicate Blind(le: (RevealedOrder, RevealedOrder) -> bool) {
    forall a, b :: le(Bare(a), Bare(b)) == le(a, b)
  }

  lemma {:induction false} InsertBare(le: (RevealedOrder, RevealedOrder) -> bool, x: RevealedOrder, s: seq<RevealedOrder>)
    requires Blind(le)
    ensures BareAll(Insert(le, x, s)) == Insert(le, Bare(x), BareAll(s))
  {
    BareAt(s);
    if s == [] || le(s[|s| - 1], x) {
      BareSnoc(s, x);
    } else {
      var front, last := s[..|s| - 1], s[|s| - 1];
      InsertBare(le, x, front);
      BareSnoc(Insert(le, x, front), last);
      assert BareAll(s)[..|s| - 1] == BareAll(front);
    }
  }

  lemma {:induction false} SortBare(le: (RevealedOrder, RevealedOrder) -> bool, s: seq<RevealedOrder>)
    requires Blind(le)
    ensures BareAll(Sort(le, s)) == Sort(le, BareAll(s))
  {
    if s != [] {
      var front, last := s[..|s| - 1], s[|s| - 1];
      BareAt(s);
      SortBare(le, front);
      InsertBare(le, last, Sort(le, front));
      assert BareAll(s)[..|s| - 1] == BareAll(front);
    }
  }

  lemma {:induction false} OfSymbolBare(rs: seq<RevealedOrder>, symbol: Symbol)
    ensures BareAll(OfSymbol(rs, symbol)) == OfSymbol(BareAll(rs), symbol)
  {
    if rs != [] {
      var front, last := rs[..|rs| - 1], rs[|rs| - 1];
      OfSymbolBare(front, symbol);
      BareSnoc(OfSymbol(front, symbol), last);
      assert BareAll(rs)[..|BareAll(rs)| - 1] == BareAll(front);
      assert OfSymbol(front, symbol) + [] == OfSymbol(front, symbol);
    }
  }

  lemma {:induction false} OfSideBare(rs: seq<RevealedOrder>, side: nat)
    ensures BareAll(OfSide(rs, side)) == OfSide(BareAll(rs), side)
  {
    if rs != [] {
      var front, last := rs[..|rs| - 1], rs[|rs| - 1];
      OfSideBare(front, side);
      BareSnoc(OfSide(front, side), last);
      assert BareAll(rs)[..|BareAll(rs)| - 1] == BareAll(front);
      assert OfSide(front, side) + [] == OfSide(front, side);
    }
  }

  lemma BooksBare(rs: seq<RevealedOrder>, symbol: Symbol)
    ensures Buys(BareAll(rs), symbol) == BareAll(Buys(rs, symbol))
    ensures Sells(BareAll(rs), symbol) == BareAll(Sells(rs, symbol))
  {
    OfSymbolBare(rs, symbol);
    OfSideBare(OfSymbol(rs, symbol), BUY);
    OfSideBare(OfSymbol(rs, symbol), SELL);
    SortBare(BuyBefore, BookEntries(rs, symbol, BUY));
    SortBare(SellBefore, BookEntries(rs, symbol, SELL));
  }

  lemma SymbolsBare(rs: seq<RevealedOrder>)
    ensures SymbolsIn(BareAll(rs)) == SymbolsIn(rs)
  {
    BareAt(rs);
    assert forall k :: 0 <= k < |rs| ==> BareAll(rs)[k].order.symbol == rs[k].order.symbol;
  }

  // ----- the walk -------------------------------------------------------------------------

  lemma AlternativesBare(buys: Book, sells: Book, c: Cursor)
    requires Open(buys, sells, c)
    ensures Open(BareAll(buys), BareAll(sells), c)
    ensures BuyHasAlternative(BareAll(buys)[c.i], BareAll(sells), c.j) == BuyHasAlternative(buys[c.i], sells, c.j)
    ensures SellHasAlternative(BareAll(sells)[c.j], BareAll(buys), c.i) == SellHasAlternative(sells[c.j], buys, c.i)
  {
    BareAt(buys);
    BareAt(sells);
    if k :| c.j <= k < |sells| && Crosses(buys[c.i], sells[k]) && !SameNft(buys[c.i], sells[k]) {
      assert Crosses(BareAll(buys)[c.i], BareAll(sells)[k]);
    }
    if k :| c.i <= k < |buys| && Crosses(buys[k], sells[c.j]) && !SameNft(buys[k], sells[c.j]) {
      assert Crosses(BareAll(buys)[k], BareAll(sells)[c.j]);
    }
  }

  lemma TurnBare(buys: Book, sells: Book, minQuantity: nat, c: Cursor)
    ensures Decide(BareAll(buys), BareAll(sells), minQuantity, c) == Decide(buys, sells, minQuantity, c)
    ensures forall outcome :: After(BareAll(buys), BareAll(sells), c, outcome) == After(buys, sells, c, outcome)
  {
    BareAt(buys);
    BareAt(sells);
    if Open(buys, sells, c) { AlternativesBare(buys, sells, c); }
  }

  lemma {:induction false} WalkBare(buys: Book, sells: Book, minQuantity: nat, c: Cursor)
    ensures Walk(BareAll(buys), BareAll(sells), minQuantity, c) == Walk(buys, sells, minQuantity, c)
    decreases Left(buys, sells, c)
  {
    TurnBare(buys, sells, minQuantity, c);
    var outcome := Decide(buys, sells, minQuantity, c);
    if outcome != Stop {
      WalkBare(buys, sells, minQuantity, After(buys, sells, c, outcome));
    }
  }

  lemma MatchesOfBare(batchId: nat, poolId: U64, symbol: Symbol, buys: Book, sells: Book, fills: seq<Fill>)
    requires FillsFit(buys, sells, fills)
    ensures FillsFit(BareAll(buys), BareAll(sells), fills)
    ensures MatchesOf(batchId, poolId, symbol, BareAll(buys), BareAll(sells), fills)
         == BareMatches(MatchesOf(batchId, poolId, symbol, buys, sells, fills))
  {
    BareAt(buys);
    BareAt(sells);
    BareMatchAt(MatchesOf(batchId, poolId, symbol, buys, sells, fills));
  }

  // ----- a whole run -----------------------------------------------------------------------

  lemma SymbolMatchesBare(input: MatchingInput, symbol: Symbol)
    ensures SymbolMatches(BareInput(input), symbol) == BareMatches(SymbolMatches(input, symbol))
  {
    if symbol in MarketMap(input.markets) {
      var buys, sells := Buys(input.revealed, symbol), Sells(input.revealed, symbol);
      var minQuantity := MarketMap(input.markets)[symbol];
      BooksBare(input.revealed, symbol);
      BareAt(buys);
      BareAt(sells);
      WalkBare(buys, sells, minQuantity, Start(buys, sells));
      WalkFits(buys, sells, minQuantity, Start(buys, sells));
      MatchesOfBare(input.batchId, input.poolId, symbol, buys, sells, Fills(buys, sells, minQuantity));
    }
  }

  lemma {:induction false} AllMatchesBare(input: MatchingInput, symbols: seq<Symbol>)
    ensures AllMatches(BareInput(input), symbols) == BareMatches(AllMatches(input, symbols))
  {
    if symbols != [] {
      var front, last := symbols[..|symbols| - 1], symbols[|symbols| - 1];
      AllMatchesBare(input, front);
      SymbolMatchesBare(input, last);
      BareMatchesAppend(AllMatches(input, front), SymbolMatches(input, last));
    }
  }

  /** A run without the signatures is the run, without the signatures. */
  lemma MatchesBare(input: MatchingInput)
    ensures Matches(BareInput(input)) == BareMatches(Matches(input))
  {
    SymbolsBare(input.revealed);
    AllMatchesBare(input, SortedStrings(SymbolsIn(input.revealed)));
  }

  /** The two lists agree in everything but the signatures. */
  ghost predicate SameButSignatures(a: seq<Match>, b: seq<Match>) {
    && |a| == |b|
    && forall k :: 0 <= k < |a| ==>
         && a[k].symbol == b[k].symbol && a[k].fillQuantity == b[k].fillQuantity
         && a[k].settlementPrice == b[k].settlementPrice && a[k].matchHash == b[k].matchHash
         && a[k].gasPayerNftId == b[k].gasPayerNftId
         && a[k].buyer.order == b[k].buyer.order && a[k].seller.order == b[k].seller.order
  }

  /** Nodes that hold the same orders under different signatures agree on every fill, price and match hash. */
  lemma SignaturesDecideNothing(x: MatchingInput, y: MatchingInput)
    requires x.batchId == y.batchId && x.poolId == y.poolId && MarketMap(x.markets) == MarketMap(y.markets)
    requires HashesIdentify(BareAll(x.revealed)) && multiset(BareAll(x.revealed)) == multiset(BareAll(y.revealed))
    ensures SameButSignatures(Matches(x), Matches(y))
  {
    OrderIndependence(BareInput(x), BareInput(y));
    MatchesBare(x);
    MatchesBare(y);
    BareMatchAt(Matches(x));
    BareMatchAt(Matches(y));
    forall k | 0 <= k < |Matches(x)| ensures BareMatch(Matches(x)[k]) == BareMatch(Matches(y)[k]) {
      assert BareMatches(Matches(x))[k] == BareMatches(Matches(y))[k];
    }
  }
}
