/** A node from strategy to settlement: orders are admitted, sealed, committed, matched with the received reveals,
    and the node's own matches are registered on the tracker they were admitted against. */
module NodePath {
  import opened Basics
  import opened Sums
  import opened Sorting
  import opened Engine
  import opened RunMatching
  import opened RunFacts
  import opened Convert
  import opened Solvency
  import opened EngineFacts
  import opened EndToEnd
  import Decimal
  import O = Orchestrator
  import E = Escrow

  /** Encoding and signing of orders. */
  datatype Sealer = Sealer(codec: O.Codec, encode: Order -> Bytes, sign: Order -> Bytes)

  /** What is decoded is what was encoded. */
  ghost predicate Faithful(sealer: Sealer) {
    forall order: Order :: sealer.codec.decode(sealer.encode(order)) == Some(order)
  }

  function Seal(sealer: Sealer, order: Order): O.ValidatedOrder {
    O.ValidatedOrder(sealer.codec.hash(order), O.Sealed(sealer.encode(order), sealer.sign(order)))
  }

  function SealAll(sealer: Sealer, orders: seq<Order>): seq<O.ValidatedOrder> {
    if orders == [] then [] else SealAll(sealer, orders[..|orders| - 1]) + [Seal(sealer, orders[|orders| - 1])]
  }

  function SymbolsOf(markets: seq<MarketConfig>): set<Symbol> {
    set k | 0 <= k < |markets| :: markets[k].symbol
  }

  /** The settings of a node in one batch. */
  datatype Node = Node(nftId: U64, batchId: nat, commitsPerBatch: nat, decimals: Decimals, markets: seq<MarketConfig>)

  ghost function ProjectedBalances(balances: E.Balances): map<Token, U64> {
    map token | token in balances :: E.Projected(balances[token])
  }

  ghost function ContextOf(node: Node, balances: E.Balances): Context {
    Context(SymbolsOf(node.markets), MarketMap(node.markets), node.decimals, ProjectedBalances(balances),
            node.commitsPerBatch, node.nftId, node.batchId)
  }

  method ReadProjected(tracker: E.EscrowTracker) returns (projected: map<Token, U64>)
    ensures projected == ProjectedBalances(tracker.balances)
  {
    var left := tracker.balances.Keys;
    projected := map[];
    while left != {}
      invariant left <= tracker.balances.Keys
      invariant projected == map token | token in tracker.balances && token !in left :: E.Projected(tracker.balances[token])
      decreases left
    {
      var token :| token in left;
      var amount := tracker.ProjectedOf(tracker.balances[token]);
      projected, left := projected[token := amount], left - {token};
    }
  }

  method ReadMarkets(markets: seq<MarketConfig>) returns (active: set<Symbol>, minimums: map<Symbol, U64>)
    ensures active == SymbolsOf(markets) && minimums == MarketMap(markets)
  {
    active, minimums := {}, map[];
    for k := 0 to |markets|
      invariant active == SymbolsOf(markets[..k]) && minimums == MarketMap(markets[..k])
    {
      assert markets[..k + 1][..k] == markets[..k];
      SymbolsNext(markets, k);
      active, minimums := active + {markets[k].symbol}, minimums[markets[k].symbol := markets[k].minQuantity];
    }
    assert markets[..|markets|] == markets;
  }

  lemma SymbolsNext(markets: seq<MarketConfig>, k: nat)
    requires k < |markets|
    ensures SymbolsOf(markets[..k + 1]) == SymbolsOf(markets[..k]) + {markets[k].symbol}
  {
    var front, all := markets[..k], markets[..k + 1];
    assert all[k] == markets[k];
    forall i | 0 <= i < k ensures front[i] == all[i] {}
    forall i | 0 <= i < k + 1 ensures all[i].symbol in SymbolsOf(front) + {markets[k].symbol} {
      if i < k { assert front[i] == all[i]; }
    }
    forall i | 0 <= i < k ensures front[i].symbol in SymbolsOf(all) {
      assert all[i] == front[i];
    }
    assert all[k].symbol in SymbolsOf(all);
  }

  /** Strategy orders admitted against the tracker, each sealed for its commit. */
  method ConvertStrategyOrders(
    specs: seq<OrderSpec>, node: Node, tracker: E.EscrowTracker, sealer: Sealer, nonces: nat -> Bytes)
    returns (validated: seq<O.ValidatedOrder>)
    requires AllComputable(Effective(specs, ContextOf(node, tracker.balances)), ContextOf(node, tracker.balances))
    ensures validated == SealAll(sealer, Validated(specs, ContextOf(node, tracker.balances), nonces).orders)
  {
    var active, minimums := ReadMarkets(node.markets);
    var projected := ReadProjected(tracker);
    var ctx := Context(active, minimums, node.decimals, projected, node.commitsPerBatch, node.nftId, node.batchId);
    var orders, warnings := ValidateOrders(specs, ctx, nonces);
    validated := [];
    for k := 0 to |orders|
      invariant validated == SealAll(sealer, orders[..k])
    {
      assert orders[..k + 1][..k] == orders[..k];
      validated := validated + [Seal(sealer, orders[k])];
    }
    assert orders[..|orders|] == orders;
  }

  // ----- the pool of a node ----------------------------------------------------------

  /** What a node matches: its committed orders and the reveals it received. */
  function PoolOf(codec: O.Codec, committed: seq<O.ValidatedOrder>, received: seq<O.RevealMessage>): seq<RevealedOrder> {
    O.Decoded(codec, O.CommittedEntries(committed)) + O.Decoded(codec, O.RevealedEntries(received))
  }

  lemma {:induction false} OrdersOfAppend(a: seq<RevealedOrder>, b: seq<RevealedOrder>, own: U64)
    ensures OrdersOf(a + b, own) == OrdersOf(a, own) + OrdersOf(b, own)
  {
    if b == [] {
      assert a + b == a;
    } else {
      var front := b[..|b| - 1];
      assert (a + b)[..|a + b| - 1] == a + front;
      OrdersOfAppend(a, front, own);
    }
  }

  lemma {:induction false} OthersHaveNone(rs: seq<RevealedOrder>, own: U64)
    requires forall k :: 0 <= k < |rs| ==> rs[k].order.nftId != own
    ensures OrdersOf(rs, own) == []
  {
    if rs != [] { OthersHaveNone(rs[..|rs| - 1], own); }
  }

  lemma SealedLength(sealer: Sealer, orders: seq<Order>)
    ensures |SealAll(sealer, orders)| == |orders|
  {
  }

  lemma PublishedSnoc<T>(items: seq<T>, last: T, ok: nat -> bool)
    ensures O.Published(items + [last], ok) == O.Published(items, ok) + if ok(|items|) then [last] else []
  {
    assert (items + [last])[..|items|] == items;
  }

  lemma {:induction false} PublishedWithin<T>(items: seq<T>, ok: nat -> bool)
    ensures multiset(O.Published(items, ok)) <= multiset(items)
  {
    if items != [] {
      PublishedWithin(items[..|items| - 1], ok);
      assert items == items[..|items| - 1] + [items[|items| - 1]];
    }
  }

  lemma SealSnoc(sealer: Sealer, orders: seq<Order>, last: Order)
    ensures SealAll(sealer, orders + [last]) == SealAll(sealer, orders) + [Seal(sealer, last)]
  {
    assert (orders + [last])[..|orders|] == orders;
  }

  lemma {:induction false} PublishedSealed(sealer: Sealer, orders: seq<Order>, ok: nat -> bool)
    ensures O.Published(SealAll(sealer, orders), ok) == SealAll(sealer, O.Published(orders, ok))
  {
    if orders != [] {
      var front, last := orders[..|orders| - 1], orders[|orders| - 1];
      PublishedSealed(sealer, front, ok);
      SealedLength(sealer, front);
      PublishedSnoc(SealAll(sealer, front), Seal(sealer, last), ok);
      PublishedSnoc(front, last, ok);
      SealSnoc(sealer, O.Published(front, ok), last);
      assert orders == front + [last] && SealAll(sealer, orders) == SealAll(sealer, front) + [Seal(sealer, last)];
      assert O.Published(front, ok) + [] == O.Published(front, ok);
      assert SealAll(sealer, O.Published(front, ok)) + [] == SealAll(sealer, O.Published(front, ok));
    }
  }

  function RevealOf(sealer: Sealer, order: Order): RevealedOrder {
    RevealedOrder(order, sealer.sign(order), sealer.codec.hash(order))
  }

  function RevealsOf(sealer: Sealer, orders: seq<Order>): seq<RevealedOrder> {
    if orders == [] then [] else RevealsOf(sealer, orders[..|orders| - 1]) + [RevealOf(sealer, orders[|orders| - 1])]
  }

  lemma EntriesSnoc(orders: seq<O.ValidatedOrder>, last: O.ValidatedOrder)
    ensures O.CommittedEntries(orders + [last]) == O.CommittedEntries(orders) + [last.order]
  {
  }

  lemma DecodedSnoc(codec: O.Codec, entries: seq<O.Sealed>, last: O.Sealed)
    ensures O.Decoded(codec, entries + [last]) == O.Decoded(codec, entries) + O.RevealedFrom(codec, last)
  {
    assert (entries + [last])[..|entries|] == entries;
  }

  /** Sealing loses nothing: the node decodes its own commits back to its orders. */
  lemma {:induction false} SealedDecoded(sealer: Sealer, orders: seq<Order>)
    requires Faithful(sealer)
    ensures O.Decoded(sealer.codec, O.CommittedEntries(SealAll(sealer, orders))) == RevealsOf(sealer, orders)
  {
    if orders != [] {
      var front, last := orders[..|orders| - 1], orders[|orders| - 1];
      SealedDecoded(sealer, front);
      EntriesSnoc(SealAll(sealer, front), Seal(sealer, last));
      DecodedSnoc(sealer.codec, O.CommittedEntries(SealAll(sealer, front)), Seal(sealer, last).order);
    }
  }

  lemma OrdersOfSnoc(rs: seq<RevealedOrder>, r: RevealedOrder, own: U64)
    ensures OrdersOf(rs + [r], own) == OrdersOf(rs, own) + if r.order.nftId == own then [r.order] else []
  {
    assert (rs + [r])[..|rs|] == rs;
  }

  lemma {:induction false} RevealsOwned(sealer: Sealer, orders: seq<Order>, own: U64)
    requires forall k :: 0 <= k < |orders| ==> orders[k].nftId == own
    ensures OrdersOf(RevealsOf(sealer, orders), own) == orders
  {
    if orders != [] {
      var front, last := orders[..|orders| - 1], orders[|orders| - 1];
      RevealsOwned(sealer, front, own);
      OrdersOfSnoc(RevealsOf(sealer, front), RevealOf(sealer, last), own);
      assert orders == front + [last];
    }
  }

  /** The orders a node has in its pool are among those it admitted. */
  lemma OwnOrdersAdmitted(
    sealer: Sealer, orders: seq<Order>, ok: nat -> bool, received: seq<O.RevealMessage>, own: U64)
    requires Faithful(sealer) && forall k :: 0 <= k < |orders| ==> orders[k].nftId == own
    requires forall r :: r in O.Decoded(sealer.codec, O.RevealedEntries(received)) ==> r.order.nftId != own
    ensures var pool := PoolOf(sealer.codec, O.Published(SealAll(sealer, orders), ok), received);
      OrdersOf(pool, own) == O.Published(orders, ok) && multiset(OrdersOf(pool, own)) <= multiset(orders)
  {
    var committed := O.Published(orders, ok);
    PublishedSealed(sealer, orders, ok);
    PublishedWithin(orders, ok);
    forall k | 0 <= k < |committed| ensures committed[k].nftId == own {
      assert committed[k] in multiset(committed);
      assert committed[k] in multiset(orders);
    }
    SealedDecoded(sealer, committed);
    RevealsOwned(sealer, committed, own);
    var others := O.Decoded(sealer.codec, O.RevealedEntries(received));
    OthersHaveNone(others, own);
    OrdersOfAppend(RevealsOf(sealer, committed), others, own);
  }

  /** The pool of a node that admitted these specs, published some of its commits and received these reveals. */
  ghost function PoolAfter(
    node: Node, balances: E.Balances, specs: seq<OrderSpec>, nonces: nat -> Bytes, sealer: Sealer,
    ok: nat -> bool, received: seq<O.RevealMessage>): seq<RevealedOrder>
    requires AllComputable(Effective(specs, ContextOf(node, balances)), ContextOf(node, balances))
  {
    var validated := SealAll(sealer, Validated(specs, ContextOf(node, balances), nonces).orders);
    PoolOf(sealer.codec, O.Published(validated, ok), received)
  }

  /** From strategy to settlement: whatever the strategy asks for, whichever commits go out and whatever the others
      reveal, the own matches of the run fit the tracker the orders were admitted against; in the swap loop nothing fails
      exactly when every match fits beside the unskipped ones before it. */
  lemma StrategyToSettlement(
    node: Node, balances: E.Balances, specs: seq<OrderSpec>, nonces: nat -> Bytes, sealer: Sealer,
    ok: nat -> bool, received: seq<O.RevealMessage>, poolId: U64, skip: Skip)
    requires E.Solvent(balances) && Faithful(sealer)
    requires var ctx := ContextOf(node, balances);
      AllComputable(Effective(specs, ctx), ctx) && NeverSlips(Effective(specs, ctx), ctx)
    requires forall k :: 0 <= k < |node.markets| ==> GoodSymbol(node.decimals, node.markets[k].symbol)
    requires forall r :: r in O.Decoded(sealer.codec, O.RevealedEntries(received)) ==> r.order.nftId != node.nftId
    requires DistinctHashes(PoolAfter(node, balances, specs, nonces, sealer, ok, received))
    requires forall h: MatchHash :: h.batchId == node.batchId ==> !E.HasPending(balances, h)
    ensures var pool := PoolAfter(node, balances, specs, nonces, sealer, ok, received);
      SwapOutcome(balances, Matches(MatchingInput(node.batchId, poolId, pool, node.markets)), node.nftId, node.decimals, skip)
  {
    var ctx := ContextOf(node, balances);
    var pool := PoolAfter(node, balances, specs, nonces, sealer, ok, received);
    PoolAdmitted(node, balances, specs, nonces, sealer, ok, received);
    GoodNode(node, MatchingInput(node.batchId, poolId, pool, node.markets));
    EndToEndSolvency(balances, specs, ctx, nonces, MatchingInput(node.batchId, poolId, pool, node.markets), skip);
  }

  lemma PoolAdmitted(
    node: Node, balances: E.Balances, specs: seq<OrderSpec>, nonces: nat -> Bytes, sealer: Sealer,
    ok: nat -> bool, received: seq<O.RevealMessage>)
    requires Faithful(sealer) && AllComputable(Effective(specs, ContextOf(node, balances)), ContextOf(node, balances))
    requires forall r :: r in O.Decoded(sealer.codec, O.RevealedEntries(received)) ==> r.order.nftId != node.nftId
    ensures multiset(OrdersOf(PoolAfter(node, balances, specs, nonces, sealer, ok, received), node.nftId))
         <= multiset(Validated(specs, ContextOf(node, balances), nonces).orders)
  {
    var ctx := ContextOf(node, balances);
    ValidatedAccounted(specs, ctx, nonces);
    OwnOrdersAdmitted(sealer, Validated(specs, ctx, nonces).orders, ok, received, node.nftId);
  }

  lemma GoodNode(node: Node, input: MatchingInput)
    requires forall k :: 0 <= k < |node.markets| ==> GoodSymbol(node.decimals, node.markets[k].symbol)
    requires input.markets == node.markets
    ensures GoodMarkets(input, node.decimals)
  {
    forall symbol | symbol in MarketMap(input.markets) ensures GoodSymbol(node.decimals, symbol) {
      MarketSymbol(node.markets, symbol);
    }
  }

  lemma {:induction false} MarketSymbol(markets: seq<MarketConfig>, symbol: Symbol)
    requires symbol in MarketMap(markets)
    ensures exists k :: 0 <= k < |markets| && markets[k].symbol == symbol
  {
    if markets[|markets| - 1].symbol != symbol {
      MarketSymbol(markets[..|markets| - 1], symbol);
    }
  }

  // ----- commits and their reveals ---------------------------------------------------------

  /** A commit and a reveal belong together: same sender, pool and batch, and the hash is that of the order revealed. */
  ghost predicate Opens(sealer: Sealer, c: O.CommitMessage, r: O.RevealMessage) {
    && c.nftId == r.nftId && c.poolId == r.poolId && c.batchId == r.batchId
    && var order := sealer.codec.decode(r.order.orderBytes); order.Some? && c.commitHash == sealer.codec.hash(order.value)
  }

  lemma {:induction false} SealedAt(sealer: Sealer, orders: seq<Order>)
    ensures |SealAll(sealer, orders)| == |orders|
    ensures forall k :: 0 <= k < |orders| ==> SealAll(sealer, orders)[k] == Seal(sealer, orders[k])
  {
    if orders != [] { SealedAt(sealer, orders[..|orders| - 1]); }
  }

  /** Every commit of sealed orders opens with the reveal of the same index, which shows the admitted order signed. */
  lemma CommitsOpen(sealer: Sealer, orders: seq<Order>, nftId: U64, poolId: U64, batchId: nat, k: nat)
    requires Faithful(sealer) && k < |orders|
    ensures var kept := SealAll(sealer, orders);
      && |kept| == |orders| && |O.CommitMessages(kept, nftId, poolId, batchId)| == |orders|
      && var c, r := O.CommitMessages(kept, nftId, poolId, batchId)[k],
                     O.RevealMessages(kept, [k], nftId, poolId, batchId)[0];
         && Opens(sealer, c, r) && c.nftId == nftId && c.poolId == poolId && c.batchId == batchId
         && sealer.codec.decode(r.order.orderBytes) == Some(orders[k]) && r.order.signature == sealer.sign(orders[k])
  {
    SealedAt(sealer, orders);
    assert sealer.codec.decode(sealer.encode(orders[k])) == Some(orders[k]);
  }

  /** Each order a node seals for its commits is for its own NFT and the current batch, in a listed symbol, at a positive
      price and with at least the market's minimum. */
  lemma SealedForBatch(node: Node, balances: E.Balances, specs: seq<OrderSpec>, nonces: nat -> Bytes, k: nat)
    requires AllComputable(Effective(specs, ContextOf(node, balances)), ContextOf(node, balances))
    requires k < |Validated(specs, ContextOf(node, balances), nonces).orders|
    ensures var order := Validated(specs, ContextOf(node, balances), nonces).orders[k];
      && order.nftId == node.nftId && order.batchId == node.batchId && order.price > 0
      && (exists i :: 0 <= i < |node.markets| && node.markets[i].symbol == order.symbol)
      && order.symbol in MarketMap(node.markets) && MarketMap(node.markets)[order.symbol] <= order.quantity
  {
    var ctx := ContextOf(node, balances);
    ValidatedAccounted(specs, ctx, nonces);
    var order := Validated(specs, ctx, nonces).orders[k];
    assert Admissible(order, ctx);
    var i :| 0 <= i < |node.markets| && node.markets[i].symbol == order.symbol;
    Listed(node.markets, i);
  }

  lemma {:induction false} Listed(markets: seq<MarketConfig>, i: nat)
    requires i < |markets|
    ensures markets[i].symbol in MarketMap(markets)
  {
    if i < |markets| - 1 {
      assert markets[..|markets| - 1][i] == markets[i];
      Listed(markets[..|markets| - 1], i);
    }
  }

  /** The pool of the theorem is the one the orchestrator matches. */
  lemma PoolIsMatched(o: O.Orchestrator, received: seq<O.RevealMessage>)
    requires o.batchState.Valid()
    ensures o.PoolInput(received).revealed == PoolOf(o.codec, o.committedOrders, received)
    ensures o.PoolInput(received).batchId == o.batchState.CurrentBatchId() && o.PoolInput(received).markets == o.marketConfigs
  {
  }

  // ----- the theorem has cases ----------------------------------------------------------

  const HALF_BALANCE: E.Balances := map["A" := E.TokenBalance(HALF, map[], map[], 0)]

  lemma OneHalf(spec: OrderSpec, nonces: nat -> Bytes)
    requires SellsHalf(spec)
    ensures Effective([spec], HalfContext()) == [spec] && AllComputable([spec], HalfContext())
    ensures Validated([spec], HalfContext(), nonces).orders == [HalfOrder(nonces(0))]
  {
    var specs, ctx := [spec], HalfContext();
    assert Effective(specs, ctx) == specs;
    HalfAdmitted(Opening(specs, ctx), 0, spec, nonces(0));
    AdmitNext(Opening(specs, ctx), specs, 0, ctx, nonces);
    assert specs[..1] == specs && specs[..0] == [];
  }

  lemma HalfNeverSlips(spec: OrderSpec)
    requires SellsHalf(spec) && AllComputable([spec], HalfContext())
    ensures NeverSlips([spec], HalfContext())
  {
    AskOfOrder(spec, HalfContext(), 0, []);
    HalfOutflow(HalfOrder([]));
    forall token ensures Total([spec], AskedOn(token, HalfContext())) < TWO64 {
      TotalPair(spec, spec, AskedOn(token, HalfContext()));
    }
    ModestDemand([spec], HalfContext());
  }

  lemma HalfBalance()
    ensures E.Solvent(HALF_BALANCE) && ReadsTracker(HalfContext(), HALF_BALANCE)
    ensures forall h: MatchHash :: !E.HasPending(HALF_BALANCE, h)
  {
  }

  function HalfPool(nonce: Bytes): seq<RevealedOrder> {
    [Plain(2, BUY, 1, 5, 0), RevealedOrder(HalfOrder(nonce), [], 1)]
  }

  lemma HalfPoolOrders(nonce: Bytes)
    ensures OrdersOf(HalfPool(nonce), 1) == [HalfOrder(nonce)] && DistinctHashes(HalfPool(nonce))
  {
    OrdersOfSnoc([], HalfPool(nonce)[0], 1);
    OrdersOfSnoc([HalfPool(nonce)[0]], HalfPool(nonce)[1], 1);
    assert HalfPool(nonce) == [HalfPool(nonce)[0]] + [HalfPool(nonce)[1]];
    assert [] + [HalfPool(nonce)[0]] == [HalfPool(nonce)[0]];
  }

  lemma {:induction false} OwnMatchKept(ms: seq<Match>, own: U64, k: nat)
    requires k < |ms| && Own(ms[k], own)
    ensures OwnMatches(ms, own) != []
  {
    if k < |ms| - 1 { OwnMatchKept(ms[..|ms| - 1], own, k); }
  }

  lemma HalfMatched(nonce: Bytes)
    ensures OwnMatches(Matches(MatchingInput(0, 0, HalfPool(nonce), [MarketConfig("A/B", 1)])), 1) != []
  {
    var input := MatchingInput(0, 0, HalfPool(nonce), [MarketConfig("A/B", 1)]);
    assert HalfPool(nonce) == [HalfPool(nonce)[0], HalfPool(nonce)[1]];
    O.OneMarket("A/B", 1);
    O.PairMatches(input, HalfPool(nonce)[0], HalfPool(nonce)[1]);
    MatchesSound(input);
    assert SoundMatch(input, Matches(input)[0]);
    OwnMatchKept(Matches(input), 1, 0);
  }

  lemma HalfMarkets(nonce: Bytes)
    ensures GoodMarkets(MatchingInput(0, 0, HalfPool(nonce), [MarketConfig("A/B", 1)]), map[])
  {
    HalfPair();
    O.OneMarket("A/B", 1);
    assert "A/B"[1..] == "/B" && Decimal.Find("/B", '/') == 0 && Decimal.Find("A/B", '/') == 1;
    assert "A/B"[2..] == "B";
    Decimal.PowFits(8);
  }

  /** The end-to-end theorem is about something: here is a case with an own match that gets registered. */
  lemma EndToEndApplies(nonces: nat -> Bytes, skip: Skip) returns (specs: seq<OrderSpec>, input: MatchingInput)
    ensures AllComputable(Effective(specs, HalfContext()), HalfContext()) && input.revealed == HalfPool(nonces(0))
    ensures multiset(OrdersOf(input.revealed, 1)) <= multiset(Validated(specs, HalfContext(), nonces).orders)
    ensures var ms := OwnMatches(Matches(input), 1);
      ms != [] && AllDivisible(map[], ms) && RegisterAll(HALF_BALANCE, ms, 1, map[], skip).failed == []
  {
    var spec := HalfSpec();
    specs := [spec];
    input := MatchingInput(0, 0, HalfPool(nonces(0)), [MarketConfig("A/B", 1)]);
    OneHalf(spec, nonces);
    HalfNeverSlips(spec);
    HalfBalance();
    HalfPoolOrders(nonces(0));
    HalfMatched(nonces(0));
    HalfMarkets(nonces(0));
    EndToEndSolvency(HALF_BALANCE, specs, HalfContext(), nonces, input, skip);
  }
}
