/** A second reading of the matching of one symbol, on two lists that shrink from the front, and why the walk over the
    sorted books agrees with it. */
module Reference {
  import opened Basics
  import opened Sorting
  import opened Engine
  import opened EngineFacts
  import opened RunMatching
  import opened RunFacts

  /** An order that still rests in the market, with what is left of it. */
  datatype Resting = Resting(entry: RevealedOrder, left: nat)

  datatype Deal = Deal(buyer: RevealedOrder, seller: RevealedOrder, quantity: nat)

  function Whole(rs: seq<RevealedOrder>): seq<Resting> {
    if rs == [] then [] else [Resting(rs[0], rs[0].order.quantity)] + Whole(rs[1..])
  }

  /** Some resting offer of another node is at this limit or below. */
  predicate OfferFor(bid: RevealedOrder, offers: seq<Resting>) {
    offers != [] &&
    ((offers[0].entry.order.price <= bid.order.price && offers[0].entry.order.nftId != bid.order.nftId) || OfferFor(bid, offers[1..]))
  }

  /** Some resting bid of another node is at this limit or above. */
  predicate BidFor(offer: RevealedOrder, bids: seq<Resting>) {
    bids != [] &&
    ((bids[0].entry.order.price >= offer.order.price && bids[0].entry.order.nftId != offer.order.nftId) || BidFor(offer, bids[1..]))
  }

  /** The first order gives away `q` units and leaves when it has none. */
  function Served(rs: seq<Resting>, q: nat): seq<Resting>
    requires rs != [] && q <= rs[0].left
  {
    if q == rs[0].left then rs[1..] else [Resting(rs[0].entry, rs[0].left - q)] + rs[1..]
  }

  /** The best bid meets the best offer until they no longer cross. */
  function Deals(bids: seq<Resting>, offers: seq<Resting>, minQuantity: nat): seq<Deal>
    decreases |bids| + |offers|
  {
    if bids == [] || offers == [] then []
    else
      var bid, offer := bids[0].entry, offers[0].entry;
      if bid.order.price < offer.order.price then []
      else if bid.order.nftId == offer.order.nftId then
        if OfferFor(bid, offers) && !BidFor(offer, bids) then Deals(bids, offers[1..], minQuantity)
        else Deals(bids[1..], offers, minQuantity)
      else if bids[0].left < minQuantity && bids[0].left <= offers[0].left then Deals(bids[1..], offers, minQuantity)
      else if offers[0].left < minQuantity then Deals(bids, offers[1..], minQuantity)
      else
        var q := if bids[0].left < offers[0].left then bids[0].left else offers[0].left;
        [Deal(bid, offer, q)] + Deals(Served(bids, q), Served(offers, q), minQuantity)
  }

  // ----- the walk is this ----------------------------------------------------------------

  /** What rests in a book from position `k` on. */
  function Rest(book: Book, k: nat, rem: nat): seq<Resting> {
    if k < |book| then [Resting(book[k], rem)] + Whole(book[k + 1..]) else []
  }

  lemma RestNext(book: Book, k: nat, rem: nat)
    requires k < |book|
    ensures Rest(book, k, rem) != [] && Rest(book, k, rem)[0] == Resting(book[k], rem)
    ensures Rest(book, k, rem)[1..] == Rest(book, k + 1, Quantity(book, k + 1))
  {
    var later := book[k + 1..];
    if later != [] {
      assert later[0] == book[k + 1] && later[1..] == book[k + 2..];
    }
  }

  lemma {:induction false} WholeOffers(bid: RevealedOrder, rs: seq<RevealedOrder>)
    ensures OfferFor(bid, Whole(rs)) <==> exists k :: 0 <= k < |rs| && Crosses(bid, rs[k]) && !SameNft(bid, rs[k])
  {
    if rs != [] {
      WholeOffers(bid, rs[1..]);
      assert Whole(rs)[1..] == Whole(rs[1..]);
      if k :| 0 <= k < |rs[1..]| && Crosses(bid, rs[1..][k]) && !SameNft(bid, rs[1..][k]) { assert rs[k + 1] == rs[1..][k]; }
      if k :| 0 <= k < |rs| && Crosses(bid, rs[k]) && !SameNft(bid, rs[k]) {
        if k > 0 { assert rs[1..][k - 1] == rs[k]; }
      }
    }
  }

  lemma {:induction false} WholeBids(offer: RevealedOrder, rs: seq<RevealedOrder>)
    ensures BidFor(offer, Whole(rs)) <==> exists k :: 0 <= k < |rs| && Crosses(rs[k], offer) && !SameNft(rs[k], offer)
  {
    if rs != [] {
      WholeBids(offer, rs[1..]);
      assert Whole(rs)[1..] == Whole(rs[1..]);
      if k :| 0 <= k < |rs[1..]| && Crosses(rs[1..][k], offer) && !SameNft(rs[1..][k], offer) { assert rs[k + 1] == rs[1..][k]; }
      if k :| 0 <= k < |rs| && Crosses(rs[k], offer) && !SameNft(rs[k], offer) {
        if k > 0 { assert rs[1..][k - 1] == rs[k]; }
      }
    }
  }

  lemma OfferRests(bid: RevealedOrder, sells: Book, j: nat, rem: nat)
    requires j < |sells|
    ensures OfferFor(bid, Rest(sells, j, rem)) <==> BuyHasAlternative(bid, sells, j)
  {
    var later := sells[j + 1..];
    WholeOffers(bid, later);
    assert Rest(sells, j, rem)[1..] == Whole(later);
    if k :| 0 <= k < |later| && Crosses(bid, later[k]) && !SameNft(bid, later[k]) { assert sells[j + 1 + k] == later[k]; }
    if k :| j <= k < |sells| && Crosses(bid, sells[k]) && !SameNft(bid, sells[k]) {
      if k > j { assert later[k - j - 1] == sells[k]; }
    }
  }

  lemma BidRests(offer: RevealedOrder, buys: Book, i: nat, rem: nat)
    requires i < |buys|
    ensures BidFor(offer, Rest(buys, i, rem)) <==> SellHasAlternative(offer, buys, i)
  {
    var later := buys[i + 1..];
    WholeBids(offer, later);
    assert Rest(buys, i, rem)[1..] == Whole(later);
    if k :| 0 <= k < |later| && Crosses(later[k], offer) && !SameNft(later[k], offer) { assert buys[i + 1 + k] == later[k]; }
    if k :| i <= k < |buys| && Crosses(buys[k], offer) && !SameNft(buys[k], offer) {
      if k > i { assert later[k - i - 1] == buys[k]; }
    }
  }

  lemma ServedRest(book: Book, k: nat, rem: nat, q: nat)
    requires k < |book| && q <= rem
    ensures Rest(book, k, rem) != [] && Rest(book, k, rem)[0].left == rem
    ensures Served(Rest(book, k, rem), q)
         == if q == rem then Rest(book, k + 1, Quantity(book, k + 1)) else Rest(book, k, rem - q)
  {
    RestNext(book, k, rem);
    RestNext(book, k, rem - q);
    assert Rest(book, k, rem - q) == [Rest(book, k, rem - q)[0]] + Rest(book, k, rem - q)[1..];
  }

  function DealsOf(buys: Book, sells: Book, fills: seq<Fill>): seq<Deal>
    requires FillsFit(buys, sells, fills)
  {
    if fills == [] then []
    else
      assert forall k :: 0 <= k < |fills[1..]| ==> fills[1..][k] == fills[k + 1];
      [Deal(buys[fills[0].b], sells[fills[0].s], fills[0].q)] + DealsOf(buys, sells, fills[1..])
  }

  /** What a turn of the walk makes of the list of a side. */
  lemma BuyTurnRests(buys: Book, sells: Book, minQuantity: nat, c: Cursor)
    requires Open(buys, sells, c)
    ensures var outcome, bids := Decide(buys, sells, minQuantity, c), Rest(buys, c.i, c.br);
      var next := After(buys, sells, c, outcome);
      && bids != [] && bids[0] == Resting(buys[c.i], c.br)
      && Rest(buys, next.i, next.br) ==
           if outcome == DropBuy then bids[1..] else if outcome == TradeTop then Served(bids, Min(c.br, c.sr)) else bids
  {
    RestNext(buys, c.i, c.br);
    ServedRest(buys, c.i, c.br, Min(c.br, c.sr));
  }

  lemma SellTurnRests(buys: Book, sells: Book, minQuantity: nat, c: Cursor)
    requires Open(buys, sells, c)
    ensures var outcome, offers := Decide(buys, sells, minQuantity, c), Rest(sells, c.j, c.sr);
      var next := After(buys, sells, c, outcome);
      && offers != [] && offers[0] == Resting(sells[c.j], c.sr)
      && Rest(sells, next.j, next.sr) ==
           if outcome == DropSell then offers[1..] else if outcome == TradeTop then Served(offers, Min(c.br, c.sr)) else offers
  {
    RestNext(sells, c.j, c.sr);
    ServedRest(sells, c.j, c.sr, Min(c.br, c.sr));
  }

  /** One step of the list reading, by what the walk decides. */
  lemma DealsTurn(buys: Book, sells: Book, minQuantity: nat, c: Cursor)
    requires Open(buys, sells, c)
    ensures var bids, offers := Rest(buys, c.i, c.br), Rest(sells, c.j, c.sr);
      && bids != [] && offers != [] && bids[0].left == c.br && offers[0].left == c.sr
      && Deals(bids, offers, minQuantity) ==
         match Decide(buys, sells, minQuantity, c)
         case Stop => []
         case DropBuy => Deals(bids[1..], offers, minQuantity)
         case DropSell => Deals(bids, offers[1..], minQuantity)
         case TradeTop =>
           var q := Min(c.br, c.sr);
           [Deal(buys[c.i], sells[c.j], q)] + Deals(Served(bids, q), Served(offers, q), minQuantity)
  {
    RestNext(buys, c.i, c.br);
    RestNext(sells, c.j, c.sr);
    OfferRests(buys[c.i], sells, c.j, c.sr);
    BidRests(sells[c.j], buys, c.i, c.br);
  }

  lemma {:induction false} WalkIsDeals(buys: Book, sells: Book, minQuantity: nat, c: Cursor)
    requires Bounded(buys, sells, c)
    ensures FillsFit(buys, sells, Walk(buys, sells, minQuantity, c))
    ensures DealsOf(buys, sells, Walk(buys, sells, minQuantity, c)) == Deals(Rest(buys, c.i, c.br), Rest(sells, c.j, c.sr), minQuantity)
    decreases Left(buys, sells, c)
  {
    WalkFits(buys, sells, minQuantity, c);
    var outcome := Decide(buys, sells, minQuantity, c);
    if Open(buys, sells, c) {
      DealsTurn(buys, sells, minQuantity, c);
      BuyTurnRests(buys, sells, minQuantity, c);
      SellTurnRests(buys, sells, minQuantity, c);
      if outcome != Stop {
        var next := After(buys, sells, c, outcome);
        WalkIsDeals(buys, sells, minQuantity, next);
        var rest := Walk(buys, sells, minQuantity, next);
        if outcome == TradeTop {
          assert ([Fill(c.i, c.j, Min(c.br, c.sr))] + rest)[1..] == rest;
        } else {
          assert [] + rest == rest;
        }
      }
    }
  }

  lemma {:induction false} DealsAt(buys: Book, sells: Book, fills: seq<Fill>)
    requires FillsFit(buys, sells, fills)
    ensures |DealsOf(buys, sells, fills)| == |fills|
    ensures forall k :: 0 <= k < |fills| ==> DealsOf(buys, sells, fills)[k] == Deal(buys[fills[k].b], sells[fills[k].s], fills[k].q)
  {
    if fills != [] {
      assert forall k :: 0 <= k < |fills[1..]| ==> fills[1..][k] == fills[k + 1];
      DealsAt(buys, sells, fills[1..]);
    }
  }

  lemma RestStart(book: Book)
    ensures Rest(book, 0, Quantity(book, 0)) == Whole(book)
  {
    if book != [] { assert book[0 + 1..] == book[1..]; }
  }

  /** The matches of a symbol are the deals of its sorted books, deal by deal. */
  lemma MatchesAreDeals(input: MatchingInput, symbol: Symbol)
    requires symbol in MarketMap(input.markets)
    ensures var deals := Deals(Whole(Buys(input.revealed, symbol)), Whole(Sells(input.revealed, symbol)), MarketMap(input.markets)[symbol]);
      var ms := SymbolMatches(input, symbol);
      && |ms| == |deals|
      && forall k :: 0 <= k < |ms| ==>
           ms[k].buyer == deals[k].buyer && ms[k].seller == deals[k].seller && ms[k].fillQuantity == deals[k].quantity
  {
    var buys, sells := Buys(input.revealed, symbol), Sells(input.revealed, symbol);
    var minQuantity := MarketMap(input.markets)[symbol];
    WalkIsDeals(buys, sells, minQuantity, Start(buys, sells));
    DealsAt(buys, sells, Fills(buys, sells, minQuantity));
    RestStart(buys);
    RestStart(sells);
  }
}
