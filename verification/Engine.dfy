/** The deterministic matching engine for one symbol: sorting the books and walking them. */
module Engine {
  import opened Basics
  import opened Sorting

  type Book = seq<RevealedOrder>

  // ----- book order ---------------------------------------------------------

  /** Buys: highest price first, then lowest hash. */
  predicate BuyBefore(a: RevealedOrder, b: RevealedOrder) {
    a.order.price > b.order.price || (a.order.price == b.order.price && a.orderHash <= b.orderHash)
  }

  /** Sells: lowest price first, then lowest hash. */
  predicate SellBefore(a: RevealedOrder, b: RevealedOrder) {
    a.order.price < b.order.price || (a.order.price == b.order.price && a.orderHash <= b.orderHash)
  }

  lemma BookOrders()
    ensures TotalPreorder(BuyBefore) && TotalPreorder(SellBefore)
  {
  }

  /** Sorts both books in place; `sort_by` of the standard library is the stable `Sort`. */
  method SortOrders(buys: array<RevealedOrder>, sells: array<RevealedOrder>)
    requires buys != sells
    modifies buys, sells
    ensures buys[..] == Sort(BuyBefore, old(buys[..]))
    ensures sells[..] == Sort(SellBefore, old(sells[..]))
    ensures Sorted(BuyBefore, buys[..]) && multiset(buys[..]) == multiset(old(buys[..]))
    ensures Sorted(SellBefore, sells[..]) && multiset(sells[..]) == multiset(old(sells[..]))
  {
    BookOrders();
    var b, s := Sort(BuyBefore, buys[..]), Sort(SellBefore, sells[..]);
    SortSorted(BuyBefore, buys[..]);
    SortSorted(SellBefore, sells[..]);
    forall k | 0 <= k < buys.Length { buys[k] := b[k]; }
    forall k | 0 <= k < sells.Length { sells[k] := s[k]; }
    assert buys[..] == b && sells[..] == s;
  }

  // ----- the walk -----------------------------------------------------------

  /** Position in both books, with what is left of the two top orders. */
  datatype Cursor = Cursor(i: nat, j: nat, br: nat, sr: nat)

  /** `q` units traded between the buy at position `b` and the sell at position `s`. */
  datatype Fill = Fill(b: nat, s: nat, q: nat)

  function Quantity(book: Book, k: nat): nat {
    if k < |book| then book[k].order.quantity else 0
  }

  function Start(buys: Book, sells: Book): Cursor {
    Cursor(0, 0, Quantity(buys, 0), Quantity(sells, 0))
  }

  predicate Open(buys: Book, sells: Book, c: Cursor) {
    c.i < |buys| && c.j < |sells|
  }

  function SkipBuy(buys: Book, c: Cursor): Cursor {
    c.(i := c.i + 1, br := Quantity(buys, c.i + 1))
  }

  function SkipSell(sells: Book, c: Cursor): Cursor {
    c.(j := c.j + 1, sr := Quantity(sells, c.j + 1))
  }

  function Trade(buys: Book, sells: Book, c: Cursor): Cursor {
    var q := Min(c.br, c.sr);
    Cursor(
      if c.br == q then c.i + 1 else c.i,
      if c.sr == q then c.j + 1 else c.j,
      if c.br == q then Quantity(buys, c.i + 1) else c.br - q,
      if c.sr == q then Quantity(sells, c.j + 1) else c.sr - q)
  }

  predicate Crosses(buy: RevealedOrder, sell: RevealedOrder) {
    buy.order.price >= sell.order.price
  }

  predicate SameNft(buy: RevealedOrder, sell: RevealedOrder) {
    buy.order.nftId == sell.order.nftId
  }

  /** Some sell from position `j` on could trade with this buy, whatever its quantity. */
  predicate BuyHasAlternative(buy: RevealedOrder, sells: Book, j: nat) {
    exists k :: j <= k < |sells| && Crosses(buy, sells[k]) && !SameNft(buy, sells[k])
  }

  predicate SellHasAlternative(sell: RevealedOrder, buys: Book, i: nat) {
    exists k :: i <= k < |buys| && Crosses(buys[k], sell) && !SameNft(buys[k], sell)
  }

  /** What one turn of the walk does with the two top orders. */
  datatype Outcome = Stop | DropBuy | DropSell | TradeTop

  function Decide(buys: Book, sells: Book, minQuantity: nat, c: Cursor): Outcome {
    if !Open(buys, sells, c) || !Crosses(buys[c.i], sells[c.j]) then Stop
    else if SameNft(buys[c.i], sells[c.j]) then
      if BuyHasAlternative(buys[c.i], sells, c.j) && !SellHasAlternative(sells[c.j], buys, c.i) then DropSell else DropBuy
    else if Min(c.br, c.sr) < minQuantity then
      if c.br <= c.sr then DropBuy else DropSell
    else TradeTop
  }

  function After(buys: Book, sells: Book, c: Cursor, outcome: Outcome): Cursor {
    match outcome
    case Stop => c
    case DropBuy => SkipBuy(buys, c)
    case DropSell => SkipSell(sells, c)
    case TradeTop => Trade(buys, sells, c)
  }

  function Emitted(c: Cursor, outcome: Outcome): seq<Fill> {
    if outcome == TradeTop then [Fill(c.i, c.j, Min(c.br, c.sr))] else []
  }

  function Left(buys: Book, sells: Book, c: Cursor): nat {
    SaturatingSub(|buys|, c.i) + SaturatingSub(|sells|, c.j)
  }

  /** The fills of the greedy walk from cursor `c`, in order. */
  function Walk(buys: Book, sells: Book, minQuantity: nat, c: Cursor): seq<Fill>
    decreases Left(buys, sells, c)
  {
    var outcome := Decide(buys, sells, minQuantity, c);
    if outcome == Stop then []
    else Emitted(c, outcome) + Walk(buys, sells, minQuantity, After(buys, sells, c, outcome))
  }

  function Fills(buys: Book, sells: Book, minQuantity: nat): seq<Fill> {
    Walk(buys, sells, minQuantity, Start(buys, sells))
  }

  // ----- matches ------------------------------------------------------------

  /** The lower order hash pays gas. */
  function GasPayer(buyer: RevealedOrder, seller: RevealedOrder): U64 {
    if buyer.orderHash < seller.orderHash then buyer.order.nftId else seller.order.nftId
  }

  /** Half of the u64 sum, which wraps when the two prices together pass 2^64. */
  function Midpoint(buyPrice: U64, sellPrice: U64): U64 {
    Wrap(buyPrice + sellPrice) / 2
  }

  function MatchOf(batchId: nat, poolId: U64, symbol: Symbol, buyer: RevealedOrder, seller: RevealedOrder, q: U64): Match {
    Match(batchId, poolId, symbol, buyer, seller, q,
          Midpoint(buyer.order.price, seller.order.price),
          MatchHash(batchId, buyer.orderHash, seller.orderHash, q),
          GasPayer(buyer, seller))
  }

  predicate FillsFit(buys: Book, sells: Book, fills: seq<Fill>) {
    forall k :: 0 <= k < |fills| ==> fills[k].b < |buys| && fills[k].s < |sells| && fills[k].q < TWO64
  }

  function MatchesOf(batchId: nat, poolId: U64, symbol: Symbol, buys: Book, sells: Book, fills: seq<Fill>): (r: seq<Match>)
    requires FillsFit(buys, sells, fills)
    ensures |r| == |fills|
  {
    seq(|fills|, k requires 0 <= k < |fills| => MatchOf(batchId, poolId, symbol, buys[fills[k].b], sells[fills[k].s], fills[k].q))
  }

  lemma MatchesOfSnoc(batchId: nat, poolId: U64, symbol: Symbol, buys: Book, sells: Book, fills: seq<Fill>, f: Fill)
    requires FillsFit(buys, sells, fills) && f.b < |buys| && f.s < |sells| && f.q < TWO64
    ensures FillsFit(buys, sells, fills + [f])
    ensures MatchesOf(batchId, poolId, symbol, buys, sells, fills + [f])
         == MatchesOf(batchId, poolId, symbol, buys, sells, fills) + [MatchOf(batchId, poolId, symbol, buys[f.b], sells[f.s], f.q)]
  {
  }

  /** What is left of an order never exceeds its quantity. */
  predicate Bounded(buys: Book, sells: Book, c: Cursor) {
    c.br <= Quantity(buys, c.i) && c.sr <= Quantity(sells, c.j)
  }

  lemma {:induction false} WalkFits(buys: Book, sells: Book, minQuantity: nat, c: Cursor)
    requires Bounded(buys, sells, c)
    ensures FillsFit(buys, sells, Walk(buys, sells, minQuantity, c))
    decreases Left(buys, sells, c)
  {
    var outcome := Decide(buys, sells, minQuantity, c);
    if outcome != Stop {
      WalkFits(buys, sells, minQuantity, After(buys, sells, c, outcome));
    }
  }

  lemma WalkSkips(buys: Book, sells: Book, minQuantity: nat, c: Cursor)
    ensures Decide(buys, sells, minQuantity, c) == DropBuy ==>
      Walk(buys, sells, minQuantity, c) == Walk(buys, sells, minQuantity, SkipBuy(buys, c))
    ensures Decide(buys, sells, minQuantity, c) == DropSell ==>
      Walk(buys, sells, minQuantity, c) == Walk(buys, sells, minQuantity, SkipSell(sells, c))
  {
  }

  lemma WalkTrades(buys: Book, sells: Book, minQuantity: nat, done: seq<Fill>, c: Cursor)
    requires Decide(buys, sells, minQuantity, c) == TradeTop
    ensures done + Walk(buys, sells, minQuantity, c)
         == (done + [Fill(c.i, c.j, Min(c.br, c.sr))]) + Walk(buys, sells, minQuantity, Trade(buys, sells, c))
  {
  }

  method GenerateMatches(
    batchId: nat, poolId: U64, symbol: Symbol, buys: Book, sells: Book, minQuantity: U64) returns (matches: seq<Match>)
    ensures FillsFit(buys, sells, Fills(buys, sells, minQuantity))
    ensures matches == MatchesOf(batchId, poolId, symbol, buys, sells, Fills(buys, sells, minQuantity))
  {
    matches := [];
    WalkFits(buys, sells, minQuantity, Start(buys, sells));
    if buys == [] || sells == [] { return; }

    var buyIdx, sellIdx := 0, 0;
    var buyRemaining: U64, sellRemaining: U64 := buys[0].order.quantity, sells[0].order.quantity;
    ghost var done: seq<Fill> := [];
    ghost var c := Start(buys, sells);

    while buyIdx < |buys| && sellIdx < |sells|
      invariant 0 <= buyIdx <= |buys| && 0 <= sellIdx <= |sells|
      invariant c == Cursor(buyIdx, sellIdx, buyRemaining, sellRemaining)
      invariant done + Walk(buys, sells, minQuantity, c) == Fills(buys, sells, minQuantity)
      invariant FillsFit(buys, sells, done)
      invariant matches == MatchesOf(batchId, poolId, symbol, buys, sells, done)
      decreases |buys| - buyIdx + |sells| - sellIdx
    {
      var buy, sell := buys[buyIdx], sells[sellIdx];
      if buy.order.price < sell.order.price { break; }
      ghost var outcome := Decide(buys, sells, minQuantity, c);
      WalkSkips(buys, sells, minQuantity, c);

      if buy.order.nftId == sell.order.nftId {
        var buyHasAlt := BuyHasAlternative(buy, sells, sellIdx);
        var sellHasAlt := SellHasAlternative(sell, buys, buyIdx);
        if buyHasAlt && !sellHasAlt {
          assert outcome == DropSell;
          sellIdx := sellIdx + 1;
          sellRemaining := if sellIdx < |sells| then sells[sellIdx].order.quantity else 0;
          c := SkipSell(sells, c);
        } else {
          assert outcome == DropBuy;
          buyIdx := buyIdx + 1;
          buyRemaining := if buyIdx < |buys| then buys[buyIdx].order.quantity else 0;
          c := SkipBuy(buys, c);
        }
        continue;
      }

      var fillQty := Min(buyRemaining, sellRemaining);
      if fillQty < minQuantity {
        if buyRemaining <= sellRemaining {
          assert outcome == DropBuy;
          buyIdx := buyIdx + 1;
          buyRemaining := if buyIdx < |buys| then buys[buyIdx].order.quantity else 0;
          c := SkipBuy(buys, c);
        } else {
          assert outcome == DropSell;
          sellIdx := sellIdx + 1;
          sellRemaining := if sellIdx < |sells| then sells[sellIdx].order.quantity else 0;
          c := SkipSell(sells, c);
        }
        continue;
      }

      assert outcome == TradeTop;
      WalkTrades(buys, sells, minQuantity, done, c);
      MatchesOfSnoc(batchId, poolId, symbol, buys, sells, done, Fill(buyIdx, sellIdx, fillQty));
      matches := matches + [MatchOf(batchId, poolId, symbol, buy, sell, fillQty)];

      buyRemaining := buyRemaining - fillQty;
      sellRemaining := sellRemaining - fillQty;
      if buyRemaining == 0 {
        buyIdx := buyIdx + 1;
        buyRemaining := if buyIdx < |buys| then buys[buyIdx].order.quantity else 0;
      }
      if sellRemaining == 0 {
        sellIdx := sellIdx + 1;
        sellRemaining := if sellIdx < |sells| then sells[sellIdx].order.quantity else 0;
      }
      c, done := Trade(buys, sells, c), done + [Fill(c.i, c.j, fillQty)];
    }
    assert done == Fills(buys, sells, minQuantity);
  }
}
