/** Counterparties an order cannot miss: a pool in which a given order of a node is bound to be filled. */
module Counterparties {
  import opened Basics
  import opened Sorting
  import opened Sums
  import opened Engine
  import opened EngineFacts
  import opened RunMatching
  import opened RunFacts
  import opened Tradables

  // ----- a walk that cannot miss an order --------------------------------------------------

  const MAX: U64 := TWO64 - 1

  /** Untouched orders of other NFTs from position `k` on, `rem` units of that one being left. */
  ghost function Full(book: Book, own: U64, k: nat, rem: nat): nat
    decreases SaturatingSub(|book|, k)
  {
    if k >= |book| then 0
    else (if book[k].order.nftId != own && rem == MAX then 1 else 0) + Full(book, own, k + 1, Quantity(book, k + 1))
  }

  /** Orders of other NFTs are as large as can be and at this price. */
  ghost predicate Countering(book: Book, own: U64, price: nat) {
    forall k :: 0 <= k < |book| && book[k].order.nftId != own ==> book[k].order.quantity == MAX && book[k].order.price == price
  }

  ghost predicate AllOwn(book: Book, own: U64) {
    forall k :: 0 <= k < |book| ==> book[k].order.nftId == own
  }

  lemma {:induction false} FullAhead(book: Book, own: U64, k: nat, rem: nat)
    requires Full(book, own, k, rem) > 0
    ensures exists m :: k <= m < |book| && book[m].order.nftId != own
    decreases SaturatingSub(|book|, k)
  {
    if book[k].order.nftId == own || rem != MAX { FullAhead(book, own, k + 1, Quantity(book, k + 1)); }
  }

  lemma BuyMeetsTop(buys: Book, sells: Book, c: Cursor, p: nat, own: U64)
    requires SortedBooks(buys, sells) && AllOwn(buys, own) && c.i <= p < |buys|
    requires Countering(sells, own, buys[p].order.price) && Full(sells, own, c.j, c.sr) > 0
    ensures Open(buys, sells, c) && Crosses(buys[c.i], sells[c.j])
    ensures SameNft(buys[c.i], sells[c.j]) ==> BuyHasAlternative(buys[c.i], sells, c.j) && !SellHasAlternative(sells[c.j], buys, c.i)
  {
    FullAhead(sells, own, c.j, c.sr);
    var m :| c.j <= m < |sells| && sells[m].order.nftId != own;
    assert c.j == m || SellBefore(sells[c.j], sells[m]);
    assert c.i == p || BuyBefore(buys[c.i], buys[p]);
    assert Crosses(buys[c.i], sells[m]) && !SameNft(buys[c.i], sells[m]);
  }

  /** The state in which a walk is bound to fill the buy at `p`. */
  ghost predicate BuyComes(buys: Book, sells: Book, minQuantity: U64, c: Cursor, p: nat, own: U64) {
    && SortedBooks(buys, sells) && AllOwn(buys, own) && c.i <= p < |buys| && Bounded(buys, sells, c)
    && minQuantity <= buys[p].order.quantity && Countering(sells, own, buys[p].order.price)
    && (c.i == p ==> c.br == buys[p].order.quantity)
    && Full(sells, own, c.j, c.sr) > p - c.i
  }

  lemma BuyStep(buys: Book, sells: Book, minQuantity: U64, c: Cursor, p: nat, own: U64)
    requires BuyComes(buys, sells, minQuantity, c, p, own)
    ensures var outcome := Decide(buys, sells, minQuantity, c);
      && outcome != Stop
      && ((outcome == TradeTop && c.i == p) || BuyComes(buys, sells, minQuantity, After(buys, sells, c, outcome), p, own))
  {
    BuyMeetsTop(buys, sells, c, p, own);
  }

  /** A large enough supply at its price fills every buy of the node that meets the minimum. */
  lemma {:induction false} WalkMeetsBuy(buys: Book, sells: Book, minQuantity: U64, c: Cursor, p: nat, own: U64)
    requires BuyComes(buys, sells, minQuantity, c, p, own)
    ensures exists k :: 0 <= k < |Walk(buys, sells, minQuantity, c)| && Walk(buys, sells, minQuantity, c)[k].b == p
    decreases Left(buys, sells, c)
  {
    var outcome := Decide(buys, sells, minQuantity, c);
    BuyStep(buys, sells, minQuantity, c, p, own);
    var fills := Walk(buys, sells, minQuantity, c);
    if outcome == TradeTop && c.i == p {
      assert fills[0].b == p;
    } else {
      var next := After(buys, sells, c, outcome);
      WalkMeetsBuy(buys, sells, minQuantity, next, p, own);
      var rest := Walk(buys, sells, minQuantity, next);
      var k :| 0 <= k < |rest| && rest[k].b == p;
      assert fills[k + |Emitted(c, outcome)|] == rest[k];
    }
  }

  lemma SellMeetsTop(buys: Book, sells: Book, c: Cursor, p: nat, own: U64)
    requires SortedBooks(buys, sells) && AllOwn(sells, own) && c.j <= p < |sells|
    requires Countering(buys, own, sells[p].order.price) && Full(buys, own, c.i, c.br) > 0
    ensures Open(buys, sells, c) && Crosses(buys[c.i], sells[c.j])
    ensures buys[c.i].order.nftId == own ==> !BuyHasAlternative(buys[c.i], sells, c.j)
  {
    FullAhead(buys, own, c.i, c.br);
    var m :| c.i <= m < |buys| && buys[m].order.nftId != own;
    assert c.i == m || BuyBefore(buys[c.i], buys[m]);
    assert c.j == p || SellBefore(sells[c.j], sells[p]);
  }

  ghost predicate SellComes(buys: Book, sells: Book, minQuantity: U64, c: Cursor, p: nat, own: U64) {
    && SortedBooks(buys, sells) && AllOwn(sells, own) && c.j <= p < |sells| && Bounded(buys, sells, c)
    && minQuantity <= sells[p].order.quantity && Countering(buys, own, sells[p].order.price)
    && (c.j == p ==> c.sr == sells[p].order.quantity)
    && Full(buys, own, c.i, c.br) > p - c.j
  }

  lemma SellStep(buys: Book, sells: Book, minQuantity: U64, c: Cursor, p: nat, own: U64)
    requires SellComes(buys, sells, minQuantity, c, p, own)
    ensures var outcome := Decide(buys, sells, minQuantity, c);
      && outcome != Stop
      && ((outcome == TradeTop && c.j == p) || SellComes(buys, sells, minQuantity, After(buys, sells, c, outcome), p, own))
  {
    SellMeetsTop(buys, sells, c, p, own);
  }

  /** A large enough demand at its price fills every sell of the node that meets the minimum. */
  lemma {:induction false} WalkMeetsSell(buys: Book, sells: Book, minQuantity: U64, c: Cursor, p: nat, own: U64)
    requires SellComes(buys, sells, minQuantity, c, p, own)
    ensures exists k :: 0 <= k < |Walk(buys, sells, minQuantity, c)| && Walk(buys, sells, minQuantity, c)[k].s == p
    decreases Left(buys, sells, c)
  {
    var outcome := Decide(buys, sells, minQuantity, c);
    SellStep(buys, sells, minQuantity, c, p, own);
    var fills := Walk(buys, sells, minQuantity, c);
    if outcome == TradeTop && c.j == p {
      assert fills[0].s == p;
    } else {
      var next := After(buys, sells, c, outcome);
      WalkMeetsSell(buys, sells, minQuantity, next, p, own);
      var rest := Walk(buys, sells, minQuantity, next);
      var k :| 0 <= k < |rest| && rest[k].s == p;
      assert fills[k + |Emitted(c, outcome)|] == rest[k];
    }
  }

  // ----- counting the other NFTs of a book ----------------------------------------------------

  function Foreign(own: U64): RevealedOrder -> nat {
    (r: RevealedOrder) => if r.order.nftId != own then 1 else 0
  }

  function Mine(own: U64): RevealedOrder -> nat {
    (r: RevealedOrder) => if r.order.nftId == own then 1 else 0
  }

  /** The same weight, on one symbol and side only. */
  function Restricted(weight: RevealedOrder -> nat, symbol: Symbol, side: nat): RevealedOrder -> nat {
    (r: RevealedOrder) => if r.order.symbol == symbol && r.order.side == side then weight(r) else 0
  }

  lemma {:induction false} SideTotal(rs: seq<RevealedOrder>, side: nat, weight: RevealedOrder -> nat, kept: RevealedOrder -> nat)
    requires forall r :: kept(r) == if r.order.side == side then weight(r) else 0
    ensures Total(OfSide(rs, side), weight) == Total(rs, kept)
  {
    if rs != [] {
      var front, r := rs[..|rs| - 1], rs[|rs| - 1];
      SideTotal(front, side, weight, kept);
      TotalSnoc(OfSide(front, side), r, weight);
      assert OfSide(front, side) + [] == OfSide(front, side);
    }
  }

  lemma {:induction false} SymbolTotal(rs: seq<RevealedOrder>, symbol: Symbol, weight: RevealedOrder -> nat, kept: RevealedOrder -> nat)
    requires forall r :: kept(r) == if r.order.symbol == symbol then weight(r) else 0
    ensures Total(OfSymbol(rs, symbol), weight) == Total(rs, kept)
  {
    if rs != [] {
      var front, r := rs[..|rs| - 1], rs[|rs| - 1];
      SymbolTotal(front, symbol, weight, kept);
      TotalSnoc(OfSymbol(front, symbol), r, weight);
      assert OfSymbol(front, symbol) + [] == OfSymbol(front, symbol);
    }
  }

  lemma EntriesTotal(rs: seq<RevealedOrder>, symbol: Symbol, side: nat, weight: RevealedOrder -> nat)
    ensures Total(BookEntries(rs, symbol, side), weight) == Total(rs, Restricted(weight, symbol, side))
  {
    var ofSide := (r: RevealedOrder) => if r.order.side == side then weight(r) else 0;
    SideTotal(OfSymbol(rs, symbol), side, weight, ofSide);
    SymbolTotal(rs, symbol, ofSide, Restricted(weight, symbol, side));
  }

  lemma {:induction false} FullIsTotal(book: Book, own: U64, price: nat, k: nat)
    requires Countering(book, own, price) && k <= |book|
    ensures Full(book, own, k, Quantity(book, k)) == Total(book[k..], Foreign(own))
    decreases |book| - k
  {
    if k < |book| {
      FullIsTotal(book, own, price, k + 1);
      assert book[k..] == [book[k]] + book[k + 1..];
      TotalCons(book[k], book[k + 1..], Foreign(own));
    }
  }

  lemma {:induction false} EachCounts<T>(s: seq<T>, weight: T -> nat, n: nat)
    requires forall k :: 0 <= k < |s| ==> weight(s[k]) == n
    ensures Total(s, weight) == n * |s|
  {
    if s != [] {
      var front := s[..|s| - 1];
      EachCounts(front, weight, n);
      assert n * |s| == n * |front| + n;
    }
  }

  lemma {:induction false} AtMostEach<T>(s: seq<T>, weight: T -> nat)
    requires forall x :: weight(x) <= 1
    ensures Total(s, weight) <= |s|
  {
    if s != [] { AtMostEach(s[..|s| - 1], weight); }
  }

  // ----- the pool of a node against its counterparties -------------------------------------------

  /** Orders of the node, and more counter-orders to one of them than it has orders. */
  ghost predicate Against(mine: seq<RevealedOrder>, others: seq<RevealedOrder>, w: RevealedOrder, own: U64) {
    && (forall k :: 0 <= k < |mine| ==> mine[k].order.nftId == own)
    && (forall k :: 0 <= k < |others| ==> CounterTo(others[k], w, own))
    && |others| > |mine|
  }

  /** Opposite side, same symbol and price, largest quantity, another NFT. */
  predicate CounterTo(r: RevealedOrder, w: RevealedOrder, own: U64) {
    && r.order.nftId != own && r.order.symbol == w.order.symbol
    && r.order.side == (if w.order.side == BUY then SELL else BUY)
    && r.order.price == w.order.price && r.order.quantity == MAX
  }

  lemma PoolMember(mine: seq<RevealedOrder>, others: seq<RevealedOrder>, w: RevealedOrder, own: U64, r: RevealedOrder)
    requires Against(mine, others, w, own) && r in mine + others
    ensures r.order.nftId == own || CounterTo(r, w, own)
    ensures r.order.nftId == own <==> r in mine
  {
    if r in mine { var k :| 0 <= k < |mine| && mine[k] == r; }
    if r in others { var k :| 0 <= k < |others| && others[k] == r; }
  }

  /** The two books of the pool at the symbol of `w`. */
  lemma PoolBooks(mine: seq<RevealedOrder>, others: seq<RevealedOrder>, w: RevealedOrder, own: U64)
    requires Against(mine, others, w, own) && (w.order.side == BUY || w.order.side == SELL)
    ensures var pool, symbol := mine + others, w.order.symbol;
      var buys, sells := Buys(pool, symbol), Sells(pool, symbol);
      && (w.order.side == BUY ==> AllOwn(buys, own) && Countering(sells, own, w.order.price))
      && (w.order.side == SELL ==> AllOwn(sells, own) && Countering(buys, own, w.order.price))
  {
    var pool, symbol := mine + others, w.order.symbol;
    var buys, sells := Buys(pool, symbol), Sells(pool, symbol);
    forall k | 0 <= k < |buys| ensures buys[k].order.side == BUY && (buys[k].order.nftId == own || CounterTo(buys[k], w, own)) {
      BookMember(pool, symbol, k);
      PoolMember(mine, others, w, own, buys[k]);
    }
    forall k | 0 <= k < |sells| ensures sells[k].order.side == SELL && (sells[k].order.nftId == own || CounterTo(sells[k], w, own)) {
      BookMember(pool, symbol, k);
      PoolMember(mine, others, w, own, sells[k]);
    }
  }

  /** A book of one side of the pool, counted by owner. */
  lemma PoolCounts(mine: seq<RevealedOrder>, others: seq<RevealedOrder>, w: RevealedOrder, own: U64, side: nat)
    requires Against(mine, others, w, own)
    ensures var entries := BookEntries(mine + others, w.order.symbol, side);
      && (side == (if w.order.side == BUY then SELL else BUY) ==> Total(entries, Foreign(own)) == |others|)
      && Total(entries, Mine(own)) <= |mine|
  {
    var symbol := w.order.symbol;
    var foreign, own' := Restricted(Foreign(own), symbol, side), Restricted(Mine(own), symbol, side);
    EntriesTotal(mine + others, symbol, side, Foreign(own));
    EntriesTotal(mine + others, symbol, side, Mine(own));
    TotalAppend(mine, others, foreign);
    TotalAppend(mine, others, own');
    EachCounts(mine, foreign, 0);
    if side == (if w.order.side == BUY then SELL else BUY) { EachCounts(others, foreign, 1); }
    AtMostEach(mine, own');
    EachCounts(others, own', 0);
  }

  lemma OwnBookLength(book: Book, own: U64)
    requires AllOwn(book, own)
    ensures |book| == Total(book, Mine(own))
  {
    EachCounts(book, Mine(own), 1);
  }

  /** The books against each other: no more own orders than the node has, and every counter-order untouched. */
  lemma PoolRoom(mine: seq<RevealedOrder>, others: seq<RevealedOrder>, w: RevealedOrder, own: U64)
    requires Against(mine, others, w, own) && (w.order.side == BUY || w.order.side == SELL)
    ensures var pool, symbol := mine + others, w.order.symbol;
      var book, counter := if w.order.side == BUY then Buys(pool, symbol) else Sells(pool, symbol),
                           if w.order.side == BUY then Sells(pool, symbol) else Buys(pool, symbol);
      |book| <= |mine| && Full(counter, own, 0, Quantity(counter, 0)) == |others|
  {
    var pool, symbol := mine + others, w.order.symbol;
    var book, counter := if w.order.side == BUY then Buys(pool, symbol) else Sells(pool, symbol),
                         if w.order.side == BUY then Sells(pool, symbol) else Buys(pool, symbol);
    var side := if w.order.side == BUY then SELL else BUY;
    PoolBooks(mine, others, w, own);
    PoolCounts(mine, others, w, own, w.order.side);
    PoolCounts(mine, others, w, own, side);
    TotalPermuted(book, BookEntries(pool, symbol, w.order.side), Mine(own));
    TotalPermuted(counter, BookEntries(pool, symbol, side), Foreign(own));
    OwnBookLength(book, own);
    FullIsTotal(counter, own, w.order.price, 0);
    assert counter[0..] == counter;
  }

  lemma PlaceInBook(pool: seq<RevealedOrder>, w: RevealedOrder, book: Book) returns (p: nat)
    requires w in pool && multiset(book) == multiset(BookEntries(pool, w.order.symbol, w.order.side))
    ensures p < |book| && book[p] == w
  {
    BookEntriesCount(pool, w.order.symbol, w.order.side, w);
    assert w in multiset(pool);
    assert w in multiset(book);
    p :| 0 <= p < |book| && book[p] == w;
  }

  /** In such a pool the order is filled. */
  lemma BuyFilled(mine: seq<RevealedOrder>, others: seq<RevealedOrder>, w: RevealedOrder, own: U64, minQuantity: U64)
    returns (p: nat, k: nat)
    requires Against(mine, others, w, own) && w in mine && w.order.side == BUY && minQuantity <= w.order.quantity
    ensures var buys, sells := Buys(mine + others, w.order.symbol), Sells(mine + others, w.order.symbol);
      var fills := Fills(buys, sells, minQuantity);
      p < |buys| && buys[p] == w && k < |fills| && fills[k].b == p
  {
    var pool, symbol := mine + others, w.order.symbol;
    var buys, sells := Buys(pool, symbol), Sells(pool, symbol);
    p := PlaceInBook(pool, w, buys);
    BooksSorted(pool, symbol);
    PoolBooks(mine, others, w, own);
    PoolRoom(mine, others, w, own);
    WalkMeetsBuy(buys, sells, minQuantity, Start(buys, sells), p, own);
    k :| 0 <= k < |Fills(buys, sells, minQuantity)| && Fills(buys, sells, minQuantity)[k].b == p;
  }

  lemma SellFilled(mine: seq<RevealedOrder>, others: seq<RevealedOrder>, w: RevealedOrder, own: U64, minQuantity: U64)
    returns (p: nat, k: nat)
    requires Against(mine, others, w, own) && w in mine && w.order.side == SELL && minQuantity <= w.order.quantity
    ensures var buys, sells := Buys(mine + others, w.order.symbol), Sells(mine + others, w.order.symbol);
      var fills := Fills(buys, sells, minQuantity);
      p < |sells| && sells[p] == w && k < |fills| && fills[k].s == p
  {
    var pool, symbol := mine + others, w.order.symbol;
    var buys, sells := Buys(pool, symbol), Sells(pool, symbol);
    p := PlaceInBook(pool, w, sells);
    BooksSorted(pool, symbol);
    PoolBooks(mine, others, w, own);
    PoolRoom(mine, others, w, own);
    WalkMeetsSell(buys, sells, minQuantity, Start(buys, sells), p, own);
    k :| 0 <= k < |Fills(buys, sells, minQuantity)| && Fills(buys, sells, minQuantity)[k].s == p;
  }

  /** An order is in a match as its buyer or as its seller. */
  ghost predicate Involved(ms: seq<Match>, w: RevealedOrder) {
    exists k :: 0 <= k < |ms| && (ms[k].buyer == w || ms[k].seller == w)
  }

  lemma InvolvedAppend(a: seq<Match>, b: seq<Match>, w: RevealedOrder)
    ensures Involved(a + b, w) <==> Involved(a, w) || Involved(b, w)
  {
    if k :| 0 <= k < |a| && (a[k].buyer == w || a[k].seller == w) { assert (a + b)[k] == a[k]; }
    if k :| 0 <= k < |b| && (b[k].buyer == w || b[k].seller == w) { assert (a + b)[|a| + k] == b[k]; }
    if k :| 0 <= k < |a + b| && ((a + b)[k].buyer == w || (a + b)[k].seller == w) {
      if k < |a| { assert (a + b)[k] == a[k]; } else { assert (a + b)[k] == b[k - |a|]; }
    }
  }

  lemma {:induction false} MatchKept(input: MatchingInput, symbols: seq<Symbol>, w: RevealedOrder)
    ensures Involved(AllMatches(input, symbols), w) <==>
      w.order.symbol in symbols && Involved(SymbolMatches(input, w.order.symbol), w)
  {
    if symbols != [] {
      var front, last := symbols[..|symbols| - 1], symbols[|symbols| - 1];
      MatchKept(input, front, w);
      InvolvedAppend(AllMatches(input, front), SymbolMatches(input, last), w);
      SplitLast(symbols);
      InvolvedInOwn(input, last, w);
    }
  }

  lemma InvolvedInOwn(input: MatchingInput, symbol: Symbol, w: RevealedOrder)
    ensures Involved(SymbolMatches(input, symbol), w) ==> w.order.symbol == symbol
  {
    var ms := SymbolMatches(input, symbol);
    if k :| 0 <= k < |ms| && (ms[k].buyer == w || ms[k].seller == w) { SymbolMatchesSound(input, symbol, k); }
  }

  /** An order is in a match of the run exactly when it is in one of its symbol. */
  lemma InvolvedExactly(input: MatchingInput, w: RevealedOrder)
    ensures Involved(Matches(input), w) <==> Involved(SymbolMatches(input, w.order.symbol), w)
  {
    SortedMembers(SymbolsIn(input.revealed));
    LiveRevealed(input, w.order.symbol);
    MatchKept(input, SortedStrings(SymbolsIn(input.revealed)), w);
  }

  lemma OrderMatched(input: MatchingInput, mine: seq<RevealedOrder>, others: seq<RevealedOrder>, w: RevealedOrder, own: U64)
    requires Against(mine, others, w, own) && w in mine && Tradable(w, input.markets) && input.revealed == mine + others
    requires MarketMap(input.markets)[w.order.symbol] <= w.order.quantity
    ensures Involved(Matches(input), w)
  {
    var symbol := w.order.symbol;
    var minQuantity := MarketMap(input.markets)[symbol];
    var ms := SymbolMatches(input, symbol);
    if w.order.side == BUY {
      var p, k := BuyFilled(mine, others, w, own, minQuantity);
      assert ms[k].buyer == w;
    } else {
      var p, k := SellFilled(mine, others, w, own, minQuantity);
      assert ms[k].seller == w;
    }
    InvolvedExactly(input, w);
  }

  lemma OnlyRevealed(input: MatchingInput, w: RevealedOrder)
    ensures Involved(Matches(input), w) ==> w in input.revealed
  {
    MatchesSound(input);
    if Involved(Matches(input), w) {
      var k :| 0 <= k < |Matches(input)| && (Matches(input)[k].buyer == w || Matches(input)[k].seller == w);
      assert SoundMatch(input, Matches(input)[k]);
    }
  }
}
