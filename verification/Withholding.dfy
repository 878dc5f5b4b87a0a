/** When a node may keep a committed order back: exactly when no match could involve it. */
module Withholding {
  import opened Basics
  import opened Sorting
  import opened Sums
  import opened Engine
  import opened EngineFacts
  import opened RunMatching
  import opened RunFacts
  import opened Tradables
  import opened Counterparties
  import O = Orchestrator
  import N = NodePath
  import C = Convert
  import E = Escrow

  // ----- counter-orders a rest of the pool could reveal ------------------------------------------

  /** NFTs that are not the node's; the first 2^64 - 1 of them differ. */
  function Stranger(own: U64, k: nat): (nft: U64)
    ensures nft != own
  {
    var n := k % MAX;
    if n < own then n else n + 1
  }

  /** `n` orders to the other side of `w`, each of an NFT of its own. */
  function Counters(n: nat, w: Order, own: U64): seq<Order> {
    if n == 0 then []
    else
      Counters(n - 1, w, own)
        + [Order(Stranger(own, n - 1), w.symbol, if w.side == BUY then SELL else BUY, w.price, MAX, w.batchId, seq(n - 1, _ => 0))]
  }

  lemma {:induction false} CountersAre(n: nat, w: Order, own: U64, sealer: N.Sealer)
    ensures var rs := N.RevealsOf(sealer, Counters(n, w, own));
      |rs| == n && forall k :: 0 <= k < n ==>
        && |rs[k].order.nonce| == k && rs[k].orderHash == sealer.codec.hash(rs[k].order)
        && rs[k].order.nftId == Stranger(own, k)
        && forall s, h :: CounterTo(rs[k], RevealedOrder(w, s, h), own)
  {
    if n > 0 { CountersAre(n - 1, w, own, sealer); }
  }

  lemma StrangersDiffer(own: U64, i: nat, j: nat)
    requires i < j < MAX
    ensures Stranger(own, i) != Stranger(own, j)
  {
  }

  /** No NFT has more than `limit` of the orders. */
  ghost predicate PerNft(rs: seq<RevealedOrder>, limit: nat) {
    forall nft: U64 :: Total(rs, Mine(nft)) <= limit
  }

  lemma {:induction false} OneEach(rs: seq<RevealedOrder>, nft: U64)
    requires forall i, j :: 0 <= i < j < |rs| ==> rs[i].order.nftId != rs[j].order.nftId
    ensures Total(rs, Mine(nft)) <= 1
    ensures (forall k :: 0 <= k < |rs| ==> rs[k].order.nftId != nft) ==> Total(rs, Mine(nft)) == 0
  {
    if rs != [] { OneEach(rs[..|rs| - 1], nft); }
  }

  /** The counter-orders take one order of each NFT. */
  lemma CountersOneEach(n: nat, w: Order, own: U64, sealer: N.Sealer)
    requires n <= MAX
    ensures PerNft(N.RevealsOf(sealer, Counters(n, w, own)), 1)
  {
    var rs := N.RevealsOf(sealer, Counters(n, w, own));
    CountersAre(n, w, own, sealer);
    forall i, j | 0 <= i < j < |rs| ensures rs[i].order.nftId != rs[j].order.nftId { StrangersDiffer(own, i, j); }
    forall nft: U64 ensures Total(rs, Mine(nft)) <= 1 { OneEach(rs, nft); }
  }

  ghost predicate CollisionFree(hash: Order -> Hash) {
    forall a, b :: hash(a) == hash(b) ==> a == b
  }

  lemma CountersDistinct(n: nat, w: Order, own: U64, sealer: N.Sealer)
    requires CollisionFree(sealer.codec.hash)
    ensures DistinctHashes(N.RevealsOf(sealer, Counters(n, w, own)))
  {
    CountersAre(n, w, own, sealer);
  }

  // ----- agreement with the rest of the pool ------------------------------------------------------

  /** One batch of a pool. */
  datatype Batch = Batch(id: nat, poolId: U64, markets: seq<MarketConfig>)

  ghost function Computed(batch: Batch, codec: O.Codec, own: seq<O.Sealed>, received: seq<O.Sealed>): seq<Match> {
    O.NodeMatches(batch.id, batch.poolId, batch.markets, codec, own, received)
  }

  /** A node that committed `own` and showed only `shown` computes what every other node of the pool computes, whichever
      part of the pool is that node's own. */
  ghost predicate AgreesWithRest(batch: Batch, codec: O.Codec, own: seq<O.Sealed>, shown: seq<O.Sealed>, others: seq<O.Sealed>) {
    forall mine, heard :: multiset(mine) + multiset(heard) == multiset(shown) + multiset(others) ==>
      Computed(batch, codec, own, others) == Computed(batch, codec, mine, heard)
  }

  lemma Disagrees(batch: Batch, codec: O.Codec, own: seq<O.Sealed>, shown: seq<O.Sealed>, others: seq<O.Sealed>)
    requires Computed(batch, codec, own, others) != Computed(batch, codec, shown, others)
    ensures !AgreesWithRest(batch, codec, own, shown, others)
  {
  }

  function RevealOfEntry(codec: O.Codec, entry: O.Sealed): Option<RevealedOrder> {
    match codec.decode(entry.orderBytes)
    case None => None
    case Some(order) => Some(RevealedOrder(order, entry.signature, codec.hash(order)))
  }

  /** An entry that no match can involve: undecodable, of no known side, or of an unlisted symbol. */
  predicate Idle(codec: O.Codec, entry: O.Sealed, markets: seq<MarketConfig>) {
    var r := RevealOfEntry(codec, entry);
    r.None? || !Tradable(r.value, markets)
  }

  lemma {:induction false} DecodedFrom(codec: O.Codec, entries: seq<O.Sealed>, r: RevealedOrder)
    ensures r in O.Decoded(codec, entries) <==> exists k :: 0 <= k < |entries| && RevealOfEntry(codec, entries[k]) == Some(r)
  {
    if entries != [] {
      var front, last := entries[..|entries| - 1], entries[|entries| - 1];
      DecodedFrom(codec, front, r);
      if RevealOfEntry(codec, last) == Some(r) {
        assert entries[|entries| - 1] == last;
      }
      if k :| 0 <= k < |front| && RevealOfEntry(codec, front[k]) == Some(r) {
        assert entries[k] == front[k];
      }
      if k :| 0 <= k < |entries| && RevealOfEntry(codec, entries[k]) == Some(r) {
        if k < |front| { assert front[k] == entries[k]; }
      }
    }
  }

  lemma DecodedHash(codec: O.Codec, entries: seq<O.Sealed>, r: RevealedOrder)
    requires r in O.Decoded(codec, entries)
    ensures r.orderHash == codec.hash(r.order)
  {
    DecodedFrom(codec, entries, r);
  }

  /** The entries of the node: one NFT, no order twice. */
  ghost predicate OwnEntries(codec: O.Codec, nft: U64, own: seq<O.Sealed>) {
    && DistinctHashes(O.Decoded(codec, own))
    && forall r :: r in O.Decoded(codec, own) ==> r.order.nftId == nft
  }

  /** The entries of the other nodes: other NFTs, no order twice, and of no NFT more than the limit. */
  ghost predicate OthersEntries(codec: O.Codec, nft: U64, limit: nat, others: seq<O.Sealed>) {
    && DistinctHashes(O.Decoded(codec, others)) && PerNft(O.Decoded(codec, others), limit)
    && forall r :: r in O.Decoded(codec, others) ==> r.order.nftId != nft
  }

  /** The node agrees with the rest of its pool whatever the other nodes reveal within the limit. */
  ghost predicate AlwaysAgrees(batch: Batch, codec: O.Codec, nft: U64, limit: nat, own: seq<O.Sealed>, shown: seq<O.Sealed>) {
    forall others :: OthersEntries(codec, nft, limit, others) ==> AgreesWithRest(batch, codec, own, shown, others)
  }

  predicate AllIdle(codec: O.Codec, entries: seq<O.Sealed>, markets: seq<MarketConfig>) {
    forall k :: 0 <= k < |entries| ==> Idle(codec, entries[k], markets)
  }

  lemma PoolIdentified(codec: O.Codec, nft: U64, limit: nat, own: seq<O.Sealed>, others: seq<O.Sealed>)
    requires CollisionFree(codec.hash) && OwnEntries(codec, nft, own) && OthersEntries(codec, nft, limit, others)
    ensures HashesIdentify(O.Decoded(codec, own) + O.Decoded(codec, others))
  {
    var a, b := O.Decoded(codec, own), O.Decoded(codec, others);
    forall i, j | 0 <= i < |a| && 0 <= j < |b| ensures a[i].orderHash != b[j].orderHash {
      assert a[i] in a && b[j] in b;
      DecodedHash(codec, own, a[i]);
      DecodedHash(codec, others, b[j]);
    }
    DistinctIdentify(a, b);
  }

  lemma DistinctIdentify(a: seq<RevealedOrder>, b: seq<RevealedOrder>)
    requires DistinctHashes(a) && DistinctHashes(b)
    requires forall i, j :: 0 <= i < |a| && 0 <= j < |b| ==> a[i].orderHash != b[j].orderHash
    ensures HashesIdentify(a + b)
  {
    var s := a + b;
    forall i, j | 0 <= i < |s| && 0 <= j < |s| && s[i].orderHash == s[j].orderHash ensures s[i] == s[j] {
      assert i < |a| <==> j < |a|;
    }
  }

  lemma DecodedParts(codec: O.Codec, whole: seq<O.Sealed>, a: seq<O.Sealed>, b: seq<O.Sealed>)
    requires multiset(whole) == multiset(a) + multiset(b)
    ensures multiset(O.Decoded(codec, whole)) == multiset(O.Decoded(codec, a)) + multiset(O.Decoded(codec, b))
  {
    assert multiset(whole) == multiset(a + b);
    O.DecodedPermuted(codec, whole, a + b);
    O.DecodedAppend(codec, a, b);
  }

  /** Keeping back what no match can involve changes nothing, for any others. */
  lemma IdleAgrees(
    batch: Batch, codec: O.Codec, own: seq<O.Sealed>, shown: seq<O.Sealed>, withheld: seq<O.Sealed>, others: seq<O.Sealed>)
    requires multiset(own) == multiset(shown) + multiset(withheld)
    requires AllIdle(codec, withheld, batch.markets)
    requires HashesIdentify(O.Decoded(codec, own) + O.Decoded(codec, others))
    ensures AgreesWithRest(batch, codec, own, shown, others)
  {
    forall mine, heard | multiset(mine) + multiset(heard) == multiset(shown) + multiset(others)
      ensures Computed(batch, codec, own, others) == Computed(batch, codec, mine, heard)
    {
      var x := MatchingInput(batch.id, batch.poolId, O.Decoded(codec, own) + O.Decoded(codec, others), batch.markets);
      var y := MatchingInput(batch.id, batch.poolId, O.Decoded(codec, mine) + O.Decoded(codec, heard), batch.markets);
      DecodedParts(codec, own, shown, withheld);
      DecodedParts(codec, mine + heard, shown, others);
      DecodedParts(codec, mine + heard, mine, heard);
      forall r | Tradable(r, batch.markets) ensures multiset(x.revealed)[r] == multiset(y.revealed)[r] {
        IdleAbsent(codec, withheld, batch.markets, r);
      }
      TradableDecide(x, y);
    }
  }

  lemma IdleAbsent(codec: O.Codec, withheld: seq<O.Sealed>, markets: seq<MarketConfig>, r: RevealedOrder)
    requires Tradable(r, markets) && AllIdle(codec, withheld, markets)
    ensures multiset(O.Decoded(codec, withheld))[r] == 0
  {
    DecodedFrom(codec, withheld, r);
    assert r !in O.Decoded(codec, withheld);
  }

  /** Every tradable order of the node meets the minimum of its market. */
  ghost predicate MeetsMinimum(rs: seq<RevealedOrder>, markets: seq<MarketConfig>) {
    forall r :: r in rs && Tradable(r, markets) ==> MarketMap(markets)[r.order.symbol] <= r.order.quantity
  }

  /** What is kept back is not among what was shown. */
  lemma WithheldUnseen(codec: O.Codec, own: seq<O.Sealed>, shown: seq<O.Sealed>, withheld: seq<O.Sealed>, k: nat)
    requires multiset(own) == multiset(shown) + multiset(withheld) && DistinctHashes(O.Decoded(codec, own))
    requires k < |withheld| && RevealOfEntry(codec, withheld[k]).Some?
    ensures var w := RevealOfEntry(codec, withheld[k]).value; w in O.Decoded(codec, own) && w !in O.Decoded(codec, shown)
  {
    var w := RevealOfEntry(codec, withheld[k]).value;
    DecodedParts(codec, own, shown, withheld);
    DecodedFrom(codec, withheld, w);
    assert w in multiset(O.Decoded(codec, withheld));
    MemberOnce(O.Decoded(codec, own), w);
    assert w in multiset(O.Decoded(codec, own));
    assert w !in multiset(O.Decoded(codec, shown));
  }

  /** The reveals with which the rest of the pool notices that `w` was kept back. */
  function Witnesses(sealer: N.Sealer, w: Order, nft: U64, n: nat): seq<O.Sealed> {
    O.CommittedEntries(N.SealAll(sealer, Counters(n, w, nft)))
  }

  lemma WitnessesAre(sealer: N.Sealer, w: RevealedOrder, nft: U64, mine: seq<RevealedOrder>)
    requires N.Faithful(sealer) && CollisionFree(sealer.codec.hash)
    requires (forall r :: r in mine ==> r.order.nftId == nft) && |mine| < MAX
    ensures var others := Witnesses(sealer, w.order, nft, |mine| + 1);
      OthersEntries(sealer.codec, nft, 1, others) && Against(mine, O.Decoded(sealer.codec, others), w, nft)
  {
    var n := |mine| + 1;
    N.SealedDecoded(sealer, Counters(n, w.order, nft));
    CountersAre(n, w.order, nft, sealer);
    CountersDistinct(n, w.order, nft, sealer);
    CountersOneEach(n, w.order, nft, sealer);
    var rs := N.RevealsOf(sealer, Counters(n, w.order, nft));
    forall k | 0 <= k < |rs| ensures CounterTo(rs[k], w, nft) {
      assert w == RevealedOrder(w.order, w.signature, w.orderHash);
    }
    forall k | 0 <= k < |mine| ensures mine[k].order.nftId == nft { assert mine[k] in mine; }
  }

  lemma {:induction false} DecodedLength(codec: O.Codec, entries: seq<O.Sealed>)
    ensures |O.Decoded(codec, entries)| <= |entries|
  {
    if entries != [] { DecodedLength(codec, entries[..|entries| - 1]); }
  }

  lemma LimitWeakens(codec: O.Codec, nft: U64, low: nat, high: nat, others: seq<O.Sealed>)
    requires OthersEntries(codec, nft, low, others) && low <= high
    ensures OthersEntries(codec, nft, high, others)
  {
    forall n: U64 ensures Total(O.Decoded(codec, others), Mine(n)) <= high {
      assert Total(O.Decoded(codec, others), Mine(n)) <= low;
    }
  }

  /** Keeping back an order that meets its minimum splits the pool for some others, none of which reveals more than one. */
  lemma TradableSplits(
    batch: Batch, sealer: N.Sealer, nft: U64, own: seq<O.Sealed>, shown: seq<O.Sealed>, withheld: seq<O.Sealed>, k: nat)
    returns (others: seq<O.Sealed>)
    requires N.Faithful(sealer) && CollisionFree(sealer.codec.hash)
    requires multiset(own) == multiset(shown) + multiset(withheld) && |own| < MAX
    requires OwnEntries(sealer.codec, nft, own)
    requires k < |withheld| && !Idle(sealer.codec, withheld[k], batch.markets)
    requires var w := RevealOfEntry(sealer.codec, withheld[k]).value; MarketMap(batch.markets)[w.order.symbol] <= w.order.quantity
    ensures OthersEntries(sealer.codec, nft, 1, others) && !AgreesWithRest(batch, sealer.codec, own, shown, others)
  {
    var codec, w := sealer.codec, RevealOfEntry(sealer.codec, withheld[k]).value;
    var mine := O.Decoded(codec, own);
    DecodedLength(codec, own);
    WithheldUnseen(codec, own, shown, withheld, k);
    others := Witnesses(sealer, w.order, nft, |mine| + 1);
    WitnessesAre(sealer, w, nft, mine);
    var x := MatchingInput(batch.id, batch.poolId, mine + O.Decoded(codec, others), batch.markets);
    var y := MatchingInput(batch.id, batch.poolId, O.Decoded(codec, shown) + O.Decoded(codec, others), batch.markets);
    OrderMatched(x, mine, O.Decoded(codec, others), w, nft);
    OnlyRevealed(y, w);
    assert w !in O.Decoded(codec, others);
    Disagrees(batch, codec, own, shown, others);
  }

  lemma IdleAlwaysAgrees(
    batch: Batch, codec: O.Codec, nft: U64, limit: nat, own: seq<O.Sealed>, shown: seq<O.Sealed>, withheld: seq<O.Sealed>)
    requires CollisionFree(codec.hash) && OwnEntries(codec, nft, own)
    requires multiset(own) == multiset(shown) + multiset(withheld) && AllIdle(codec, withheld, batch.markets)
    ensures AlwaysAgrees(batch, codec, nft, limit, own, shown)
  {
    forall others | OthersEntries(codec, nft, limit, others) ensures AgreesWithRest(batch, codec, own, shown, others) {
      PoolIdentified(codec, nft, limit, own, others);
      IdleAgrees(batch, codec, own, shown, withheld, others);
    }
  }

  /** A node agrees with the rest of its pool, whatever the others reveal, exactly when all it keeps back is idle; the
      others may be limited to as little as one order each. */
  lemma WithholdingExact(
    batch: Batch, sealer: N.Sealer, nft: U64, limit: nat, own: seq<O.Sealed>, shown: seq<O.Sealed>, withheld: seq<O.Sealed>)
    requires N.Faithful(sealer) && CollisionFree(sealer.codec.hash) && limit >= 1
    requires multiset(own) == multiset(shown) + multiset(withheld) && |own| < MAX
    requires OwnEntries(sealer.codec, nft, own) && MeetsMinimum(O.Decoded(sealer.codec, own), batch.markets)
    ensures AlwaysAgrees(batch, sealer.codec, nft, limit, own, shown) <==> AllIdle(sealer.codec, withheld, batch.markets)
  {
    if k :| 0 <= k < |withheld| && !Idle(sealer.codec, withheld[k], batch.markets) {
      WithheldUnseen(sealer.codec, own, shown, withheld, k);
      var others := TradableSplits(batch, sealer, nft, own, shown, withheld, k);
      LimitWeakens(sealer.codec, nft, 1, limit, others);
    } else {
      IdleAlwaysAgrees(batch, sealer.codec, nft, limit, own, shown, withheld);
    }
  }

  // ----- commits the admission let through ---------------------------------------------------------

  lemma {:induction false} RevealsAre(sealer: N.Sealer, orders: seq<Order>)
    ensures |N.RevealsOf(sealer, orders)| == |orders|
    ensures forall k :: 0 <= k < |orders| ==> N.RevealsOf(sealer, orders)[k] == N.RevealOf(sealer, orders[k])
  {
    if orders != [] { RevealsAre(sealer, orders[..|orders| - 1]); }
  }

  lemma {:induction false} MarketListed(markets: seq<MarketConfig>, symbol: Symbol)
    requires symbol in N.SymbolsOf(markets)
    ensures symbol in MarketMap(markets)
  {
    var k :| 0 <= k < |markets| && markets[k].symbol == symbol;
    var front := markets[..|markets| - 1];
    if markets[|markets| - 1].symbol != symbol {
      assert front[k].symbol == symbol;
      MarketListed(front, symbol);
    }
  }

  /** Admitted orders are tradable and meet their minimum. */
  lemma AdmittedTradable(node: N.Node, balances: E.Balances, orders: seq<Order>, sealer: N.Sealer)
    requires C.AllAdmissible(orders, N.ContextOf(node, balances))
    ensures var rs := N.RevealsOf(sealer, orders);
      && (forall r :: r in rs ==> Tradable(r, node.markets) && r.order.nftId == node.nftId)
      && MeetsMinimum(rs, node.markets)
  {
    RevealsAre(sealer, orders);
    var rs := N.RevealsOf(sealer, orders);
    forall r | r in rs
      ensures Tradable(r, node.markets) && r.order.nftId == node.nftId
      ensures MarketMap(node.markets)[r.order.symbol] <= r.order.quantity
    {
      var k :| 0 <= k < |rs| && rs[k] == r;
      assert C.Admissible(orders[k], N.ContextOf(node, balances));
      MarketListed(node.markets, r.order.symbol);
    }
  }

  lemma SealedDistinct(sealer: N.Sealer, orders: seq<Order>)
    requires CollisionFree(sealer.codec.hash) && forall i, j :: 0 <= i < j < |orders| ==> orders[i] != orders[j]
    ensures DistinctHashes(N.RevealsOf(sealer, orders))
  {
    RevealsAre(sealer, orders);
  }

  lemma {:induction false} SealedDecodes(sealer: N.Sealer, orders: seq<Order>, entry: O.Sealed)
    requires N.Faithful(sealer) && entry in O.CommittedEntries(N.SealAll(sealer, orders))
    ensures exists k :: 0 <= k < |orders| && RevealOfEntry(sealer.codec, entry) == Some(N.RevealOf(sealer, orders[k]))
  {
    var front, last := orders[..|orders| - 1], orders[|orders| - 1];
    N.EntriesSnoc(N.SealAll(sealer, front), N.Seal(sealer, last));
    if entry in O.CommittedEntries(N.SealAll(sealer, front)) {
      SealedDecodes(sealer, front, entry);
      var k :| 0 <= k < |front| && RevealOfEntry(sealer.codec, entry) == Some(N.RevealOf(sealer, front[k]));
      assert orders[k] == front[k];
    } else {
      assert sealer.codec.decode(sealer.encode(last)) == Some(last);
      assert orders[|orders| - 1] == last;
    }
  }

  /** A node that committed admitted orders agrees with the rest of its pool, whatever the others reveal within any limit
      per NFT, exactly when it reveals all of them. */
  lemma AdmittedMustReveal(
    node: N.Node, balances: E.Balances, orders: seq<Order>, sealer: N.Sealer, poolId: U64, limit: nat,
    shown: seq<O.Sealed>, withheld: seq<O.Sealed>)
    requires N.Faithful(sealer) && CollisionFree(sealer.codec.hash) && limit >= 1 && |orders| < MAX
    requires C.AllAdmissible(orders, N.ContextOf(node, balances))
    requires forall i, j :: 0 <= i < j < |orders| ==> orders[i] != orders[j]
    requires multiset(O.CommittedEntries(N.SealAll(sealer, orders))) == multiset(shown) + multiset(withheld)
    ensures var batch, own := Batch(node.batchId, poolId, node.markets), O.CommittedEntries(N.SealAll(sealer, orders));
      AlwaysAgrees(batch, sealer.codec, node.nftId, limit, own, shown) <==> withheld == []
  {
    var batch, own := Batch(node.batchId, poolId, node.markets), O.CommittedEntries(N.SealAll(sealer, orders));
    N.SealedDecoded(sealer, orders);
    AdmittedTradable(node, balances, orders, sealer);
    SealedDistinct(sealer, orders);
    N.SealedLength(sealer, orders);
    WithholdingExact(batch, sealer, node.nftId, limit, own, shown, withheld);
    if withheld != [] {
      assert withheld[0] in multiset(withheld);
      assert withheld[0] in multiset(own);
      SealedDecodes(sealer, orders, withheld[0]);
      RevealsAre(sealer, orders);
      var k :| 0 <= k < |orders| && RevealOfEntry(sealer.codec, withheld[0]) == Some(N.RevealOf(sealer, orders[k]));
      assert N.RevealsOf(sealer, orders)[k] in N.RevealsOf(sealer, orders);
      assert !Idle(sealer.codec, withheld[0], node.markets);
    }
  }
}
