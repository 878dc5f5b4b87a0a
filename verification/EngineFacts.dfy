/** What the walk over two books guarantees: accounting, conservation, price, volume, no stranding. */
module EngineFacts {
  import opened Basics
  import opened Sorting
  import opened Engine

  ghost predicate SortedBooks(buys: Book, sells: Book) {
    Sorted(BuyBefore, buys) && Sorted(SellBefore, sells)
  }

  // ----- fill accounting ----------------------------------------------------

  /** A fill of the walk from `c`: two crossing orders of different NFTs, not yet passed, of the minimum size. */
  ghost predicate Sound(buys: Book, sells: Book, minQuantity: nat, c: Cursor, f: Fill) {
    && c.i <= f.b < |buys| && c.j <= f.s < |sells|
    && Crosses(buys[f.b], sells[f.s]) && !SameNft(buys[f.b], sells[f.s])
    && minQuantity <= f.q
  }

  /** Both positions never go back, and at least one of them moves between two fills. */
  ghost predicate Advancing(fills: seq<Fill>) {
    forall k, l :: 0 <= k < l < |fills| ==>
      fills[k].b <= fills[l].b && fills[k].s <= fills[l].s && (fills[k].b < fills[l].b || fills[k].s < fills[l].s)
  }

  lemma {:induction false} WalkAccounting(buys: Book, sells: Book, minQuantity: nat, c: Cursor)
    ensures var fills := Walk(buys, sells, minQuantity, c);
      && (forall k :: 0 <= k < |fills| ==> Sound(buys, sells, minQuantity, c, fills[k]))
      && Advancing(fills)
      && (fills != [] ==> |fills| < Left(buys, sells, c))
    decreases Left(buys, sells, c)
  {
    var outcome := Decide(buys, sells, minQuantity, c);
    if outcome != Stop {
      WalkAccounting(buys, sells, minQuantity, After(buys, sells, c, outcome));
    }
  }

  /** Accounting of a whole run: sound fills, no pair of positions twice, at most |buys| + |sells| - 1 of them. */
  lemma FillAccounting(buys: Book, sells: Book, minQuantity: nat)
    ensures var fills := Fills(buys, sells, minQuantity);
      && (forall k :: 0 <= k < |fills| ==>
            && fills[k].b < |buys| && fills[k].s < |sells|
            && minQuantity <= fills[k].q
            && Crosses(buys[fills[k].b], sells[fills[k].s])
            && !SameNft(buys[fills[k].b], sells[fills[k].s]))
      && (forall k, l :: 0 <= k < l < |fills| ==> (fills[k].b, fills[k].s) != (fills[l].b, fills[l].s))
      && (fills != [] ==> |fills| <= |buys| + |sells| - 1)
  {
    WalkAccounting(buys, sells, minQuantity, Start(buys, sells));
  }

  /** The local settlement price lies between the two limits exactly when their u64 sum does not wrap. */
  lemma MidpointBetweenLimits(buyer: RevealedOrder, seller: RevealedOrder)
    requires Crosses(buyer, seller)
    ensures seller.order.price <= Midpoint(buyer.order.price, seller.order.price) <= buyer.order.price
       <==> buyer.order.price + seller.order.price < TWO64
  {
    var sum := buyer.order.price + seller.order.price;
    if sum >= TWO64 {
      assert sum % TWO64 == sum - TWO64;
    }
  }

  // ----- conservation -------------------------------------------------------

  /** A weight of `q` units of the order at position `k`. */
  type Weight = (nat, nat) -> nat

  /** Splitting a quantity never gains weight. */
  ghost predicate Superadditive(w: Weight) {
    forall k: nat, x: nat, y: nat :: NoGain(w, k, x, y)
  }

  ghost predicate NoGain(w: Weight, k: nat, x: nat, y: nat) {
    w(k, x) + w(k, y) <= w(k, x + y)
  }

  ghost function BuyWeight(fills: seq<Fill>, w: Weight): nat {
    if fills == [] then 0 else w(fills[0].b, fills[0].q) + BuyWeight(fills[1..], w)
  }

  ghost function SellWeight(fills: seq<Fill>, w: Weight): nat {
    if fills == [] then 0 else w(fills[0].s, fills[0].q) + SellWeight(fills[1..], w)
  }

  /** Weight of `rem` units of position `k` and of everything ranked after it. */
  ghost function Capacity(book: Book, w: Weight, k: nat, rem: nat): nat
    decreases SaturatingSub(|book|, k)
  {
    if k >= |book| then 0 else w(k, rem) + Capacity(book, w, k + 1, Quantity(book, k + 1))
  }

  lemma SplitWeight(w: Weight, k: nat, q: nat, rem: nat)
    requires Superadditive(w) && q <= rem
    ensures w(k, q) + w(k, rem - q) <= w(k, rem)
  {
    assert NoGain(w, k, q, rem - q);
  }

  lemma CapacityAfterTrade(book: Book, w: Weight, k: nat, rem: nat, q: nat)
    requires Superadditive(w) && k < |book| && q <= rem
    ensures w(k, q) + (if q == rem then Capacity(book, w, k + 1, Quantity(book, k + 1)) else Capacity(book, w, k, rem - q))
         <= Capacity(book, w, k, rem)
  {
    if q != rem { SplitWeight(w, k, q, rem); }
  }

  /** Weight of the fill that a turn emits. */
  ghost function TurnWeight(w: Weight, k: nat, c: Cursor, outcome: Outcome): nat {
    if outcome == TradeTop then w(k, Min(c.br, c.sr)) else 0
  }

  lemma WeightTurn(buys: Book, sells: Book, minQuantity: nat, c: Cursor, w: Weight)
    requires Decide(buys, sells, minQuantity, c) != Stop
    ensures var outcome := Decide(buys, sells, minQuantity, c);
      var fills, rest := Walk(buys, sells, minQuantity, c), Walk(buys, sells, minQuantity, After(buys, sells, c, outcome));
      && BuyWeight(fills, w) == TurnWeight(w, c.i, c, outcome) + BuyWeight(rest, w)
      && SellWeight(fills, w) == TurnWeight(w, c.j, c, outcome) + SellWeight(rest, w)
  {
    var outcome := Decide(buys, sells, minQuantity, c);
    var rest := Walk(buys, sells, minQuantity, After(buys, sells, c, outcome));
    if outcome == TradeTop {
      assert ([Fill(c.i, c.j, Min(c.br, c.sr))] + rest)[1..] == rest;
    } else {
      assert [] + rest == rest;
    }
  }

  lemma CapacityTurn(buys: Book, sells: Book, c: Cursor, outcome: Outcome, wb: Weight, ws: Weight)
    requires Superadditive(wb) && Superadditive(ws) && Open(buys, sells, c) && outcome != Stop
    ensures var next := After(buys, sells, c, outcome);
      && TurnWeight(wb, c.i, c, outcome) + Capacity(buys, wb, next.i, next.br) <= Capacity(buys, wb, c.i, c.br)
      && TurnWeight(ws, c.j, c, outcome) + Capacity(sells, ws, next.j, next.sr) <= Capacity(sells, ws, c.j, c.sr)
  {
    if outcome == TradeTop {
      CapacityAfterTrade(buys, wb, c.i, c.br, Min(c.br, c.sr));
      CapacityAfterTrade(sells, ws, c.j, c.sr, Min(c.br, c.sr));
    }
  }

  /** The fills use no more weight than the books still hold, whatever the skips and partial fills. */
  lemma {:induction false} WalkConserves(buys: Book, sells: Book, minQuantity: nat, c: Cursor, wb: Weight, ws: Weight)
    requires Superadditive(wb) && Superadditive(ws)
    ensures BuyWeight(Walk(buys, sells, minQuantity, c), wb) <= Capacity(buys, wb, c.i, c.br)
    ensures SellWeight(Walk(buys, sells, minQuantity, c), ws) <= Capacity(sells, ws, c.j, c.sr)
    decreases Left(buys, sells, c)
  {
    var outcome := Decide(buys, sells, minQuantity, c);
    if outcome != Stop {
      WalkConserves(buys, sells, minQuantity, After(buys, sells, c, outcome), wb, ws);
      WeightTurn(buys, sells, minQuantity, c, wb);
      WeightTurn(buys, sells, minQuantity, c, ws);
      CapacityTurn(buys, sells, c, outcome, wb, ws);
    }
  }

  /** Units of buy position `p` (sell position `p`) that were filled. */
  ghost function FilledBuy(fills: seq<Fill>, p: nat): nat {
    BuyWeight(fills, At(p))
  }

  ghost function FilledSell(fills: seq<Fill>, p: nat): nat {
    SellWeight(fills, At(p))
  }

  function At(p: nat): Weight {
    (k: nat, q: nat) => if k == p then q else 0
  }

  lemma {:induction false} CapacityAt(book: Book, p: nat, k: nat)
    requires p < |book|
    ensures Capacity(book, At(p), k, Quantity(book, k)) == if k <= p then book[p].order.quantity else 0
    decreases SaturatingSub(|book|, k)
  {
    if k < |book| { CapacityAt(book, p, k + 1); }
  }

  /** No order is filled past its quantity. */
  lemma NoOverfill(buys: Book, sells: Book, minQuantity: nat)
    ensures forall p :: 0 <= p < |buys| ==> FilledBuy(Fills(buys, sells, minQuantity), p) <= buys[p].order.quantity
    ensures forall p :: 0 <= p < |sells| ==> FilledSell(Fills(buys, sells, minQuantity), p) <= sells[p].order.quantity
  {
    forall p: nat | p < |buys| ensures FilledBuy(Fills(buys, sells, minQuantity), p) <= buys[p].order.quantity {
      WeightsSuperadditive(buys, sells, 0, p);
      WalkConserves(buys, sells, minQuantity, Start(buys, sells), At(p), At(p));
      CapacityAt(buys, p, 0);
    }
    forall p: nat | p < |sells| ensures FilledSell(Fills(buys, sells, minQuantity), p) <= sells[p].order.quantity {
      WeightsSuperadditive(buys, sells, 0, p);
      WalkConserves(buys, sells, minQuantity, Start(buys, sells), At(p), At(p));
      CapacityAt(sells, p, 0);
    }
  }

  // ----- clearing volume ----------------------------------------------------

  ghost function Volume(fills: seq<Fill>): nat {
    if fills == [] then 0 else fills[0].q + Volume(fills[1..])
  }

  /** Quantity bid at `price` or more from position `k` on, `rem` units of it being left at `k`. */
  ghost function Demand(buys: Book, price: nat, k: nat, rem: nat): nat
    decreases SaturatingSub(|buys|, k)
  {
    if k >= |buys| then 0
    else (if buys[k].order.price >= price then rem else 0) + Demand(buys, price, k + 1, Quantity(buys, k + 1))
  }

  /** Quantity offered at `price` or less. */
  ghost function Supply(sells: Book, price: nat, k: nat, rem: nat): nat
    decreases SaturatingSub(|sells|, k)
  {
    if k >= |sells| then 0
    else (if sells[k].order.price <= price then rem else 0) + Supply(sells, price, k + 1, Quantity(sells, k + 1))
  }

  /** What could trade at one price: the smaller of demand and supply. */
  ghost function VolumeAt(buys: Book, sells: Book, price: nat): nat {
    Min(Demand(buys, price, 0, Quantity(buys, 0)), Supply(sells, price, 0, Quantity(sells, 0)))
  }

  /** The best volume over all prices. */
  ghost predicate IsClearingVolume(buys: Book, sells: Book, v: nat) {
    && (exists price: nat :: VolumeAt(buys, sells, price) == v)
    && (forall price: nat :: VolumeAt(buys, sells, price) <= v)
  }

  function BidAt(buys: Book, price: nat): Weight {
    (k: nat, q: nat) => if k < |buys| && buys[k].order.price >= price then q else 0
  }

  function OfferAt(sells: Book, price: nat): Weight {
    (k: nat, q: nat) => if k < |sells| && sells[k].order.price <= price then q else 0
  }

  lemma WeightsSuperadditive(buys: Book, sells: Book, price: nat, p: nat)
    ensures Superadditive(BidAt(buys, price)) && Superadditive(OfferAt(sells, price)) && Superadditive(At(p))
  {
    forall k: nat, x: nat, y: nat
      ensures NoGain(BidAt(buys, price), k, x, y) && NoGain(OfferAt(sells, price), k, x, y) && NoGain(At(p), k, x, y)
    {
    }
  }

  lemma {:induction false} DemandIsCapacity(buys: Book, price: nat, k: nat, rem: nat)
    ensures Demand(buys, price, k, rem) == Capacity(buys, BidAt(buys, price), k, rem)
    decreases SaturatingSub(|buys|, k)
  {
    if k < |buys| { DemandIsCapacity(buys, price, k + 1, Quantity(buys, k + 1)); }
  }

  lemma {:induction false} SupplyIsCapacity(sells: Book, price: nat, k: nat, rem: nat)
    ensures Supply(sells, price, k, rem) == Capacity(sells, OfferAt(sells, price), k, rem)
    decreases SaturatingSub(|sells|, k)
  {
    if k < |sells| { SupplyIsCapacity(sells, price, k + 1, Quantity(sells, k + 1)); }
  }

  /** `price` is acceptable to every matched buyer and every matched seller. */
  ghost predicate Straddles(buys: Book, sells: Book, fills: seq<Fill>, price: nat) {
    forall k :: 0 <= k < |fills| ==>
      && fills[k].b < |buys| && fills[k].s < |sells|
      && sells[fills[k].s].order.price <= price <= buys[fills[k].b].order.price
  }

  lemma {:induction false} VolumeWithinPrice(buys: Book, sells: Book, fills: seq<Fill>, price: nat)
    requires Straddles(buys, sells, fills, price)
    ensures Volume(fills) == BuyWeight(fills, BidAt(buys, price)) == SellWeight(fills, OfferAt(sells, price))
  {
    if fills != [] {
      assert forall k :: 0 <= k < |fills[1..]| ==> fills[1..][k] == fills[k + 1];
      VolumeWithinPrice(buys, sells, fills[1..], price);
    }
  }

  /** One price suits every fill, self-trade and dust skips included, and bounds the volume traded. */
  lemma SingleStraddlingPrice(buys: Book, sells: Book, minQuantity: nat)
    requires SortedBooks(buys, sells)
    ensures exists price: nat ::
      && Straddles(buys, sells, Fills(buys, sells, minQuantity), price)
      && Volume(Fills(buys, sells, minQuantity)) <= VolumeAt(buys, sells, price)
  {
    var fills := Fills(buys, sells, minQuantity);
    var c := Start(buys, sells);
    WalkAccounting(buys, sells, minQuantity, c);
    var price: nat := if fills == [] then 0 else sells[fills[|fills| - 1].s].order.price;
    forall k | 0 <= k < |fills|
      ensures sells[fills[k].s].order.price <= price <= buys[fills[k].b].order.price
    {
      var last := fills[|fills| - 1];
      assert Sound(buys, sells, minQuantity, c, fills[k]) && Sound(buys, sells, minQuantity, c, last);
      assert fills[k].b == last.b || BuyBefore(buys[fills[k].b], buys[last.b]);
      assert fills[k].s == last.s || SellBefore(sells[fills[k].s], sells[last.s]);
    }
    assert Straddles(buys, sells, fills, price);
    VolumeWithinPrice(buys, sells, fills, price);
    WeightsSuperadditive(buys, sells, price, 0);
    WalkConserves(buys, sells, minQuantity, c, BidAt(buys, price), OfferAt(sells, price));
    DemandIsCapacity(buys, price, 0, Quantity(buys, 0));
    SupplyIsCapacity(sells, price, 0, Quantity(sells, 0));
  }

  lemma {:induction false} DemandBelow(buys: Book, price: nat, k: nat, rem: nat)
    ensures Demand(buys, price, k, rem) <= Demand(buys, 0, k, rem)
    decreases SaturatingSub(|buys|, k)
  {
    if k < |buys| { DemandBelow(buys, price, k + 1, Quantity(buys, k + 1)); }
  }

  /** A volume that is reached within a bound has a highest value. */
  lemma {:induction false} HighestVolume(buys: Book, sells: Book, bound: nat) returns (v: nat)
    requires forall price: nat :: VolumeAt(buys, sells, price) <= bound
    ensures IsClearingVolume(buys, sells, v)
  {
    if price: nat :| VolumeAt(buys, sells, price) == bound {
      v := bound;
    } else {
      assert bound > 0 by { assert VolumeAt(buys, sells, 0) != bound; }
      v := HighestVolume(buys, sells, bound - 1);
    }
  }

  /** Every pair of books has exactly one clearing volume. */
  lemma ClearingVolumeExists(buys: Book, sells: Book) returns (v: nat)
    ensures IsClearingVolume(buys, sells, v)
    ensures forall u: nat :: IsClearingVolume(buys, sells, u) ==> u == v
  {
    forall price: nat ensures VolumeAt(buys, sells, price) <= Demand(buys, 0, 0, Quantity(buys, 0)) {
      DemandBelow(buys, price, 0, Quantity(buys, 0));
    }
    v := HighestVolume(buys, sells, Demand(buys, 0, 0, Quantity(buys, 0)));
  }

  /** The clearing volume of the full books bounds the volume traded, with any skips. */
  lemma VolumeNeverExceedsClearing(buys: Book, sells: Book, minQuantity: nat) returns (v: nat)
    requires SortedBooks(buys, sells)
    ensures IsClearingVolume(buys, sells, v) && Volume(Fills(buys, sells, minQuantity)) <= v
  {
    v := ClearingVolumeExists(buys, sells);
    SingleStraddlingPrice(buys, sells, minQuantity);
  }

  /** No NFT bids in one book and offers in the other. */
  ghost predicate Disjoint(buys: Book, sells: Book) {
    forall i, j :: 0 <= i < |buys| && 0 <= j < |sells| ==> !SameNft(buys[i], sells[j])
  }

  lemma {:induction false} NoDemandBelow(buys: Book, price: nat, k: nat, rem: nat)
    requires forall m :: k <= m < |buys| ==> buys[m].order.price < price
    ensures Demand(buys, price, k, rem) == 0
    decreases SaturatingSub(|buys|, k)
  {
    if k < |buys| { NoDemandBelow(buys, price, k + 1, Quantity(buys, k + 1)); }
  }

  lemma {:induction false} NoSupplyAbove(sells: Book, price: nat, k: nat, rem: nat)
    requires forall m :: k <= m < |sells| ==> sells[m].order.price > price
    ensures Supply(sells, price, k, rem) == 0
    decreases SaturatingSub(|sells|, k)
  {
    if k < |sells| { NoSupplyAbove(sells, price, k + 1, Quantity(sells, k + 1)); }
  }

  /** Books that no longer cross hold demand or supply at any price, not both. */
  lemma NothingLeftAt(buys: Book, sells: Book, c: Cursor, price: nat)
    requires SortedBooks(buys, sells)
    requires !Open(buys, sells, c) || !Crosses(buys[c.i], sells[c.j])
    ensures Min(Demand(buys, price, c.i, c.br), Supply(sells, price, c.j, c.sr)) == 0
  {
    if Open(buys, sells, c) {
      if buys[c.i].order.price < price {
        assert forall m :: c.i < m < |buys| ==> BuyBefore(buys[c.i], buys[m]);
        NoDemandBelow(buys, price, c.i, c.br);
      } else {
        assert forall m :: c.j < m < |sells| ==> SellBefore(sells[c.j], sells[m]);
        NoSupplyAbove(sells, price, c.j, c.sr);
      }
    }
  }

  /** Units traded by one turn of the walk. */
  function Traded(c: Cursor, outcome: Outcome): nat {
    if outcome == TradeTop then Min(c.br, c.sr) else 0
  }

  lemma VolumeTurn(buys: Book, sells: Book, minQuantity: nat, c: Cursor)
    requires Decide(buys, sells, minQuantity, c) != Stop
    ensures var outcome := Decide(buys, sells, minQuantity, c);
      Volume(Walk(buys, sells, minQuantity, c))
        == Traded(c, outcome) + Volume(Walk(buys, sells, minQuantity, After(buys, sells, c, outcome)))
  {
    var outcome := Decide(buys, sells, minQuantity, c);
    var rest := Walk(buys, sells, minQuantity, After(buys, sells, c, outcome));
    if outcome == TradeTop {
      assert ([Fill(c.i, c.j, Min(c.br, c.sr))] + rest)[1..] == rest;
    } else {
      assert [] + rest == rest;
    }
  }

  /** Without a shared NFT and without a minimum, a skip only drops orders that are used up. */
  lemma SkipsAreEmpty(buys: Book, sells: Book, minQuantity: nat, c: Cursor)
    requires Disjoint(buys, sells) && minQuantity <= 1
    ensures Decide(buys, sells, minQuantity, c) == DropBuy ==> c.br == 0
    ensures Decide(buys, sells, minQuantity, c) == DropSell ==> c.sr == 0
  {
  }

  lemma TurnUsesDemand(buys: Book, sells: Book, c: Cursor, outcome: Outcome, price: nat)
    requires Open(buys, sells, c) && outcome != Stop
    requires outcome == DropBuy ==> c.br == 0
    requires outcome == DropSell ==> c.sr == 0
    ensures var next := After(buys, sells, c, outcome);
      && Demand(buys, price, c.i, c.br) <= Demand(buys, price, next.i, next.br) + Traded(c, outcome)
      && Supply(sells, price, c.j, c.sr) <= Supply(sells, price, next.j, next.sr) + Traded(c, outcome)
  {
  }

  /** Without a shared NFT the walk trades all that any single price allows. */
  lemma {:induction false} WalkReaches(buys: Book, sells: Book, minQuantity: nat, c: Cursor, price: nat)
    requires SortedBooks(buys, sells) && Disjoint(buys, sells) && minQuantity <= 1
    ensures Volume(Walk(buys, sells, minQuantity, c))
         >= Min(Demand(buys, price, c.i, c.br), Supply(sells, price, c.j, c.sr))
    decreases Left(buys, sells, c)
  {
    var outcome := Decide(buys, sells, minQuantity, c);
    if outcome == Stop {
      NothingLeftAt(buys, sells, c, price);
    } else {
      WalkReaches(buys, sells, minQuantity, After(buys, sells, c, outcome), price);
      VolumeTurn(buys, sells, minQuantity, c);
      SkipsAreEmpty(buys, sells, minQuantity, c);
      TurnUsesDemand(buys, sells, c, outcome, price);
    }
  }

  /** With no NFT on both sides and no effective minimum, the fills reach the clearing volume exactly. */
  lemma ClearingVolume(buys: Book, sells: Book, minQuantity: nat)
    requires SortedBooks(buys, sells) && Disjoint(buys, sells) && minQuantity <= 1
    ensures IsClearingVolume(buys, sells, Volume(Fills(buys, sells, minQuantity)))
  {
    forall price: nat ensures VolumeAt(buys, sells, price) <= Volume(Fills(buys, sells, minQuantity)) {
      WalkReaches(buys, sells, minQuantity, Start(buys, sells), price);
    }
    SingleStraddlingPrice(buys, sells, minQuantity);
  }

  lemma LastTurn(buys: Book, sells: Book, minQuantity: nat, c: Cursor)
    requires Walk(buys, sells, minQuantity, c) != []
    ensures var outcome := Decide(buys, sells, minQuantity, c);
      var fills, rest := Walk(buys, sells, minQuantity, c), Walk(buys, sells, minQuantity, After(buys, sells, c, outcome));
      && outcome != Stop
      && if rest != [] then fills[|fills| - 1] == rest[|rest| - 1] else fills[|fills| - 1].b == c.i && fills[|fills| - 1].s == c.j
  {
  }

  lemma ExhaustTurn(buys: Book, sells: Book, c: Cursor, outcome: Outcome, p: nat, filled: nat, later: nat)
    requires outcome != Stop && (outcome == DropBuy ==> c.br == 0) && c.i <= p
    requires filled == later + if p == c.i then Traded(c, outcome) else 0
    requires var next := After(buys, sells, c, outcome);
      later == if p < next.i then 0 else if p == next.i then next.br else Quantity(buys, p)
    ensures filled == if p == c.i then c.br else Quantity(buys, p)
  {
  }

  lemma ExhaustTurnSell(buys: Book, sells: Book, c: Cursor, outcome: Outcome, p: nat, filled: nat, later: nat)
    requires outcome != Stop && (outcome == DropSell ==> c.sr == 0) && c.j <= p
    requires filled == later + if p == c.j then Traded(c, outcome) else 0
    requires var next := After(buys, sells, c, outcome);
      later == if p < next.j then 0 else if p == next.j then next.sr else Quantity(sells, p)
    ensures filled == if p == c.j then c.sr else Quantity(sells, p)
  {
  }

  lemma {:induction false} NothingBehind(fills: seq<Fill>, i: nat, j: nat, p: nat)
    requires forall k :: 0 <= k < |fills| ==> i <= fills[k].b && j <= fills[k].s
    ensures p < i ==> FilledBuy(fills, p) == 0
    ensures p < j ==> FilledSell(fills, p) == 0
  {
    if fills != [] {
      assert forall k :: 0 <= k < |fills[1..]| ==> fills[1..][k] == fills[k + 1];
      NothingBehind(fills[1..], i, j, p);
    }
  }

  /** Position `p` of the buys (of the sells) is used up if the last fill lies behind it. */
  ghost predicate ExhaustedBuy(buys: Book, fills: seq<Fill>, c: Cursor, p: nat) {
    fills != [] && c.i <= p < fills[|fills| - 1].b ==> FilledBuy(fills, p) == if p == c.i then c.br else Quantity(buys, p)
  }

  ghost predicate ExhaustedSell(sells: Book, fills: seq<Fill>, c: Cursor, p: nat) {
    fills != [] && c.j <= p < fills[|fills| - 1].s ==> FilledSell(fills, p) == if p == c.j then c.sr else Quantity(sells, p)
  }

  /** The fills after a turn lie at or behind its cursor. */
  lemma RestBehind(buys: Book, sells: Book, minQuantity: nat, c: Cursor, p: nat)
    ensures p < c.i ==> FilledBuy(Walk(buys, sells, minQuantity, c), p) == 0
    ensures p < c.j ==> FilledSell(Walk(buys, sells, minQuantity, c), p) == 0
  {
    WalkAccounting(buys, sells, minQuantity, c);
    var fills := Walk(buys, sells, minQuantity, c);
    forall k | 0 <= k < |fills| ensures c.i <= fills[k].b && c.j <= fills[k].s {
      assert Sound(buys, sells, minQuantity, c, fills[k]);
    }
    NothingBehind(fills, c.i, c.j, p);
  }

  lemma ExhaustedTurn(buys: Book, sells: Book, minQuantity: nat, c: Cursor, p: nat)
    requires Disjoint(buys, sells) && minQuantity <= 1 && Decide(buys, sells, minQuantity, c) != Stop
    requires var next := After(buys, sells, c, Decide(buys, sells, minQuantity, c));
      var rest := Walk(buys, sells, minQuantity, next);
      ExhaustedBuy(buys, rest, next, p) && ExhaustedSell(sells, rest, next, p)
    ensures ExhaustedBuy(buys, Walk(buys, sells, minQuantity, c), c, p)
    ensures ExhaustedSell(sells, Walk(buys, sells, minQuantity, c), c, p)
  {
    var outcome, fills := Decide(buys, sells, minQuantity, c), Walk(buys, sells, minQuantity, c);
    var next := After(buys, sells, c, outcome);
    var rest := Walk(buys, sells, minQuantity, next);
    if fills != [] {
      LastTurn(buys, sells, minQuantity, c);
      WeightTurn(buys, sells, minQuantity, c, At(p));
      SkipsAreEmpty(buys, sells, minQuantity, c);
      RestBehind(buys, sells, minQuantity, next, p);
      if c.i <= p < fills[|fills| - 1].b {
        ExhaustTurn(buys, sells, c, outcome, p, FilledBuy(fills, p), FilledBuy(rest, p));
      }
      if c.j <= p < fills[|fills| - 1].s {
        ExhaustTurnSell(buys, sells, c, outcome, p, FilledSell(fills, p), FilledSell(rest, p));
      }
    }
  }

  lemma {:induction false} WalkExhausts(buys: Book, sells: Book, minQuantity: nat, c: Cursor, p: nat)
    requires Disjoint(buys, sells) && minQuantity <= 1
    ensures ExhaustedBuy(buys, Walk(buys, sells, minQuantity, c), c, p)
    ensures ExhaustedSell(sells, Walk(buys, sells, minQuantity, c), c, p)
    decreases Left(buys, sells, c)
  {
    var outcome := Decide(buys, sells, minQuantity, c);
    if outcome != Stop {
      WalkExhausts(buys, sells, minQuantity, After(buys, sells, c, outcome), p);
      ExhaustedTurn(buys, sells, minQuantity, c, p);
    }
  }

  /** Every order ranked before the last one filled is filled completely. */
  lemma RankedBeforeLastAreFull(buys: Book, sells: Book, minQuantity: nat)
    requires Disjoint(buys, sells) && minQuantity <= 1
    ensures var fills := Fills(buys, sells, minQuantity);
      fills != [] ==>
        && (forall p :: 0 <= p < fills[|fills| - 1].b ==> FilledBuy(fills, p) == Quantity(buys, p))
        && (forall p :: 0 <= p < fills[|fills| - 1].s ==> FilledSell(fills, p) == Quantity(sells, p))
  {
    var fills, c := Fills(buys, sells, minQuantity), Start(buys, sells);
    if fills != [] {
      forall p: nat | p < fills[|fills| - 1].b ensures FilledBuy(fills, p) == Quantity(buys, p) {
        WalkExhausts(buys, sells, minQuantity, c, p);
      }
      forall p: nat | p < fills[|fills| - 1].s ensures FilledSell(fills, p) == Quantity(sells, p) {
        WalkExhausts(buys, sells, minQuantity, c, p);
      }
    }
  }

  // ----- no stranding -------------------------------------------------------

  /** A pair the engine could have traded on its own. */
  ghost predicate Viable(buys: Book, sells: Book, minQuantity: nat, i: nat, j: nat) {
    && i < |buys| && j < |sells|
    && Crosses(buys[i], sells[j]) && !SameNft(buys[i], sells[j])
    && minQuantity <= buys[i].order.quantity && minQuantity <= sells[j].order.quantity
  }

  ghost predicate ViableFrom(buys: Book, sells: Book, minQuantity: nat, c: Cursor) {
    exists i, j :: c.i <= i && c.j <= j && Viable(buys, sells, minQuantity, i, j)
  }

  /** No order below the minimum in either book. */
  ghost predicate NoDust(buys: Book, sells: Book, minQuantity: nat) {
    && (forall i :: 0 <= i < |buys| ==> minQuantity <= buys[i].order.quantity)
    && (forall j :: 0 <= j < |sells| ==> minQuantity <= sells[j].order.quantity)
  }

  /** Neither top order has been touched. */
  ghost predicate Fresh(buys: Book, sells: Book, c: Cursor) {
    c.br == Quantity(buys, c.i) && c.sr == Quantity(sells, c.j)
  }

  /** One skip before the first fill keeps some viable pair ahead of the cursor. */
  lemma SkipKeepsViable(buys: Book, sells: Book, minQuantity: nat, c: Cursor)
    requires SortedBooks(buys, sells) && Fresh(buys, sells, c)
    requires NoDust(buys, sells, minQuantity) || Disjoint(buys, sells)
    requires ViableFrom(buys, sells, minQuantity, c)
    ensures var outcome := Decide(buys, sells, minQuantity, c);
      outcome == TradeTop || (outcome != Stop && ViableFrom(buys, sells, minQuantity, After(buys, sells, c, outcome)))
  {
    var i, j :| c.i <= i && c.j <= j && Viable(buys, sells, minQuantity, i, j);
    var outcome := Decide(buys, sells, minQuantity, c);
    assert i == c.i || BuyBefore(buys[c.i], buys[i]);
    assert j == c.j || SellBefore(sells[c.j], sells[j]);
    if outcome == DropSell && SameNft(buys[c.i], sells[c.j]) {
      assert !SellHasAlternative(sells[c.j], buys, c.i);
      assert Viable(buys, sells, minQuantity, i, j) && j != c.j;
    } else if outcome == DropBuy && i == c.i && SameNft(buys[c.i], sells[c.j]) {
      assert BuyHasAlternative(buys[c.i], sells, c.j);
      var k :| c.i <= k < |buys| && Crosses(buys[k], sells[c.j]) && !SameNft(buys[k], sells[c.j]);
      assert Viable(buys, sells, minQuantity, k, c.j);
    } else if outcome == DropSell || outcome == DropBuy {
      assert Viable(buys, sells, minQuantity, i, j);
    }
  }

  lemma {:induction false} WalkFindsViable(buys: Book, sells: Book, minQuantity: nat, c: Cursor)
    requires SortedBooks(buys, sells) && Fresh(buys, sells, c)
    requires NoDust(buys, sells, minQuantity) || Disjoint(buys, sells)
    requires ViableFrom(buys, sells, minQuantity, c)
    ensures Walk(buys, sells, minQuantity, c) != []
    decreases Left(buys, sells, c)
  {
    SkipKeepsViable(buys, sells, minQuantity, c);
    var outcome := Decide(buys, sells, minQuantity, c);
    if outcome != TradeTop {
      WalkFindsViable(buys, sells, minQuantity, After(buys, sells, c, outcome));
    }
  }

  /** The first fill of a walk is between two untouched orders, so it is a viable pair. */
  lemma {:induction false} WalkOnlyViable(buys: Book, sells: Book, minQuantity: nat, c: Cursor)
    requires Fresh(buys, sells, c) && Walk(buys, sells, minQuantity, c) != []
    ensures ViableFrom(buys, sells, minQuantity, c)
    decreases Left(buys, sells, c)
  {
    var outcome := Decide(buys, sells, minQuantity, c);
    if outcome == TradeTop {
      assert Viable(buys, sells, minQuantity, c.i, c.j);
    } else {
      var next := After(buys, sells, c, outcome);
      assert [] + Walk(buys, sells, minQuantity, next) == Walk(buys, sells, minQuantity, next);
      WalkOnlyViable(buys, sells, minQuantity, next);
      var i, j :| next.i <= i && next.j <= j && Viable(buys, sells, minQuantity, i, j);
      assert c.i <= i && c.j <= j;
    }
  }

  ghost predicate Strands(buys: Book, sells: Book, minQuantity: nat) {
    Fills(buys, sells, minQuantity) == [] && ViableFrom(buys, sells, minQuantity, Start(buys, sells))
  }

  /** The run is empty exactly when no viable pair exists, if no order is dust or no NFT is on both sides. */
  lemma NoStranding(buys: Book, sells: Book, minQuantity: nat)
    requires SortedBooks(buys, sells)
    requires NoDust(buys, sells, minQuantity) || Disjoint(buys, sells)
    ensures Fills(buys, sells, minQuantity) == [] <==> !ViableFrom(buys, sells, minQuantity, Start(buys, sells))
  {
    var c := Start(buys, sells);
    if ViableFrom(buys, sells, minQuantity, c) {
      WalkFindsViable(buys, sells, minQuantity, c);
    } else if Fills(buys, sells, minQuantity) != [] {
      WalkOnlyViable(buys, sells, minQuantity, c);
    }
  }

  /** The self-trade skip at the cursor drops an order every viable pair ahead needs. */
  ghost predicate LosesLast(buys: Book, sells: Book, minQuantity: nat, c: Cursor) {
    && Open(buys, sells, c) && Crosses(buys[c.i], sells[c.j]) && SameNft(buys[c.i], sells[c.j])
    && ViableFrom(buys, sells, minQuantity, c)
    && !ViableFrom(buys, sells, minQuantity, After(buys, sells, c, Decide(buys, sells, minQuantity, c)))
  }

  /** Before its first fill the walk comes to such a skip. */
  ghost predicate ComesToLoss(buys: Book, sells: Book, minQuantity: nat, c: Cursor)
    decreases Left(buys, sells, c)
  {
    var outcome := Decide(buys, sells, minQuantity, c);
    && (outcome == DropBuy || outcome == DropSell)
    && (LosesLast(buys, sells, minQuantity, c) || ComesToLoss(buys, sells, minQuantity, After(buys, sells, c, outcome)))
  }

  lemma DropKeepsFresh(buys: Book, sells: Book, minQuantity: nat, c: Cursor)
    requires Fresh(buys, sells, c)
    ensures var outcome := Decide(buys, sells, minQuantity, c);
      outcome == DropBuy || outcome == DropSell ==>
        && Fresh(buys, sells, After(buys, sells, c, outcome))
        && Walk(buys, sells, minQuantity, c) == Walk(buys, sells, minQuantity, After(buys, sells, c, outcome))
  {
    WalkSkips(buys, sells, minQuantity, c);
  }

  /** A viable pair ahead keeps the walk going, and only a self-trade skip can drop the last one. */
  lemma ViableTurn(buys: Book, sells: Book, minQuantity: nat, c: Cursor)
    requires SortedBooks(buys, sells) && Fresh(buys, sells, c) && ViableFrom(buys, sells, minQuantity, c)
    ensures var outcome := Decide(buys, sells, minQuantity, c);
      && outcome != Stop
      && (outcome != TradeTop ==>
            LosesLast(buys, sells, minQuantity, c) || ViableFrom(buys, sells, minQuantity, After(buys, sells, c, outcome)))
  {
    var i, j :| c.i <= i && c.j <= j && Viable(buys, sells, minQuantity, i, j);
    assert i == c.i || BuyBefore(buys[c.i], buys[i]);
    assert j == c.j || SellBefore(sells[c.j], sells[j]);
    if !SameNft(buys[c.i], sells[c.j]) { assert Viable(buys, sells, minQuantity, i, j); }
  }

  lemma ViableBack(buys: Book, sells: Book, minQuantity: nat, c: Cursor, next: Cursor)
    requires c.i <= next.i && c.j <= next.j && ViableFrom(buys, sells, minQuantity, next)
    ensures ViableFrom(buys, sells, minQuantity, c)
  {
    var i, j :| next.i <= i && next.j <= j && Viable(buys, sells, minQuantity, i, j);
    assert c.i <= i && c.j <= j;
  }

  lemma {:induction false} LossExactly(buys: Book, sells: Book, minQuantity: nat, c: Cursor)
    requires SortedBooks(buys, sells) && Fresh(buys, sells, c)
    ensures Walk(buys, sells, minQuantity, c) == [] && ViableFrom(buys, sells, minQuantity, c) <==>
      ComesToLoss(buys, sells, minQuantity, c)
    decreases Left(buys, sells, c)
  {
    var outcome := Decide(buys, sells, minQuantity, c);
    if ViableFrom(buys, sells, minQuantity, c) { ViableTurn(buys, sells, minQuantity, c); }
    if outcome == DropBuy || outcome == DropSell {
      var next := After(buys, sells, c, outcome);
      DropKeepsFresh(buys, sells, minQuantity, c);
      LossExactly(buys, sells, minQuantity, next);
      if ViableFrom(buys, sells, minQuantity, next) {
        ViableBack(buys, sells, minQuantity, c, next);
      } else if Walk(buys, sells, minQuantity, next) != [] {
        WalkOnlyViable(buys, sells, minQuantity, next);
      }
    }
  }

  /** Given books strand a viable pair exactly when a self-trade skip drops the last viable order before any fill. */
  lemma StrandsExactly(buys: Book, sells: Book, minQuantity: nat)
    requires SortedBooks(buys, sells)
    ensures Strands(buys, sells, minQuantity) <==> ComesToLoss(buys, sells, minQuantity, Start(buys, sells))
  {
    LossExactly(buys, sells, minQuantity, Start(buys, sells));
  }

  function Plain(nftId: U64, side: nat, price: U64, quantity: U64, hash: Hash): RevealedOrder {
    RevealedOrder(Order(nftId, "A/B", side, price, quantity, 0, []), [], hash)
  }

  /** Self-crossing tops keep the sell for a later buy that is dust: the one viable pair is lost. */
  lemma DustStrands(minQuantity: U64) returns (buys: Book, sells: Book)
    requires minQuantity > 0
    ensures SortedBooks(buys, sells) && Strands(buys, sells, minQuantity)
  {
    buys := [Plain(1, BUY, 5, minQuantity, 0), Plain(2, BUY, 4, minQuantity - 1, 1)];
    sells := [Plain(1, SELL, 3, minQuantity, 2), Plain(3, SELL, 5, minQuantity, 3)];
    var c0 := Start(buys, sells);
    assert Viable(buys, sells, minQuantity, 0, 1);
    assert BuyHasAlternative(buys[0], sells, 0) by { assert Crosses(buys[0], sells[1]); }
    assert SellHasAlternative(sells[0], buys, 0) by { assert Crosses(buys[1], sells[0]); }
    var c1 := SkipBuy(buys, c0);
    assert Decide(buys, sells, minQuantity, c0) == DropBuy;
    var c2 := SkipBuy(buys, c1);
    assert Decide(buys, sells, minQuantity, c1) == DropBuy;
    assert Walk(buys, sells, minQuantity, c2) == [];
    assert Walk(buys, sells, minQuantity, c1) == [] + Walk(buys, sells, minQuantity, c2);
    assert Walk(buys, sells, minQuantity, c0) == [] + Walk(buys, sells, minQuantity, c1);
  }

  /** A market never strands a viable pair, whatever its books, exactly when it has no minimum. */
  lemma StrandingNeedsMinimum(minQuantity: U64)
    ensures (forall buys: Book, sells: Book :: SortedBooks(buys, sells) ==> !Strands(buys, sells, minQuantity))
       <==> minQuantity == 0
  {
    if minQuantity > 0 {
      var buys, sells := DustStrands(minQuantity);
    } else {
      forall buys: Book, sells: Book | SortedBooks(buys, sells) ensures !Strands(buys, sells, minQuantity) {
        NoStranding(buys, sells, minQuantity);
      }
    }
  }
}
