/** The batch loop: what a node publishes and how it assembles the pool it matches. */
module Orchestrator {
  import opened Basics
  import opened Sorting
  import opened Engine
  import opened EngineFacts
  import opened RunMatching
  import opened RunFacts
  import Clock

  /** Order bytes and the signature over them, as committed and as revealed. */
  datatype Sealed = Sealed(orderBytes: Bytes, signature: Bytes)

  datatype ValidatedOrder = ValidatedOrder(commitHash: Hash, order: Sealed)

  datatype CommitMessage = CommitMessage(nftId: U64, poolId: U64, batchId: nat, commitHash: Hash)

  datatype RevealMessage = RevealMessage(nftId: U64, poolId: U64, batchId: nat, order: Sealed)

  datatype StrategyEvent = Disconnected(reason: string)

  datatype MatchRegistration = MatchRegistration(batchId: nat, matchCount: nat)

  /** Decoding and hashing of orders. */
  datatype Codec = Codec(decode: Bytes -> Option<Order>, hash: Order -> Hash)

  // ----- the pool a node matches ---------------------------------------------------

  function RevealedFrom(codec: Codec, entry: Sealed): seq<RevealedOrder> {
    match codec.decode(entry.orderBytes)
    case None => []
    case Some(order) => [RevealedOrder(order, entry.signature, codec.hash(order))]
  }

  /** The decodable entries, in order; the others are dropped. */
  function Decoded(codec: Codec, entries: seq<Sealed>): seq<RevealedOrder> {
    if entries == [] then [] else Decoded(codec, entries[..|entries| - 1]) + RevealedFrom(codec, entries[|entries| - 1])
  }

  function CommittedEntries(orders: seq<ValidatedOrder>): seq<Sealed> {
    seq(|orders|, k requires 0 <= k < |orders| => orders[k].order)
  }

  function RevealedEntries(messages: seq<RevealMessage>): seq<Sealed> {
    seq(|messages|, k requires 0 <= k < |messages| => messages[k].order)
  }

  /** The items whose publication succeeded. */
  function Published<T>(items: seq<T>, ok: nat -> bool): seq<T> {
    if items == [] then []
    else Published(items[..|items| - 1], ok) + if ok(|items| - 1) then [items[|items| - 1]] else []
  }

  function CommitMessages(orders: seq<ValidatedOrder>, nftId: U64, poolId: U64, batchId: nat): seq<CommitMessage> {
    seq(|orders|, k requires 0 <= k < |orders| => CommitMessage(nftId, poolId, batchId, orders[k].commitHash))
  }

  /** What an index reveals: a committed order, or a placeholder beyond them. */
  function RevealEntry(orders: seq<ValidatedOrder>, index: nat): Sealed {
    if index < |orders| then orders[index].order else Sealed([index % 256], seq(64, _ => 0))
  }

  function RevealMessages(orders: seq<ValidatedOrder>, indices: seq<nat>, nftId: U64, poolId: U64, batchId: nat): seq<RevealMessage> {
    seq(|indices|, k requires 0 <= k < |indices| => RevealMessage(nftId, poolId, batchId, RevealEntry(orders, indices[k])))
  }

  /** Every index below the count: the answer to a strategy that is silent. */
  function AllIndices(count: nat): seq<nat> {
    seq(count, k => k)
  }

  class Orchestrator {
    const codec: Codec
    const batchState: Clock.BatchStateBridge
    const nodeNftId: U64
    var sentEvents: seq<StrategyEvent>
    var publishedCommits: seq<CommitMessage>
    var publishedReveals: seq<RevealMessage>
    var committedOrders: seq<ValidatedOrder>
    var registeredMatches: seq<MatchRegistration>
    var currentMatches: seq<Match>
    var marketConfigs: seq<MarketConfig>

    constructor (codec: Codec, batchState: Clock.BatchStateBridge, nodeNftId: U64)
      ensures this.codec == codec && this.batchState == batchState && this.nodeNftId == nodeNftId
      ensures sentEvents == [] && publishedCommits == [] && publishedReveals == []
      ensures committedOrders == [] && registeredMatches == [] && currentMatches == [] && marketConfigs == []
    {
      this.codec, this.batchState, this.nodeNftId := codec, batchState, nodeNftId;
      sentEvents, publishedCommits, publishedReveals := [], [], [];
      committedOrders, registeredMatches, currentMatches, marketConfigs := [], [], [], [];
    }

    /** Only orders whose commit went out are kept for the reveal. */
    method OnCommitPhase(canCommit: bool, strategyOrders: Option<seq<ValidatedOrder>>, ok: nat -> bool) returns (count: nat)
      requires batchState.Valid()
      modifies this`sentEvents, this`publishedCommits, this`committedOrders
      ensures !canCommit || strategyOrders.None? ==>
        count == 0 && committedOrders == old(committedOrders) && publishedCommits == old(publishedCommits)
      ensures sentEvents == old(sentEvents) + if canCommit && strategyOrders.None? then [Disconnected("commit timeout")] else []
      ensures canCommit && strategyOrders.Some? ==>
        var orders := strategyOrders.value;
        && committedOrders == old(committedOrders) + Published(orders, ok)
        && publishedCommits == old(publishedCommits)
             + Published(CommitMessages(orders, nodeNftId, batchState.CurrentPoolId(nodeNftId), batchState.CurrentBatchId()), ok)
        && count == |Published(orders, ok)|
    {
      count := 0;
      if !canCommit { return; }
      if strategyOrders.None? {
        sentEvents := sentEvents + [Disconnected("commit timeout")];
        return;
      }
      var orders := strategyOrders.value;
      var batchId, poolId := batchState.CurrentBatchId(), batchState.CurrentPoolId(nodeNftId);
      ghost var messages := CommitMessages(orders, nodeNftId, poolId, batchId);
      for k := 0 to |orders|
        invariant committedOrders == old(committedOrders) + Published(orders[..k], ok)
        invariant publishedCommits == old(publishedCommits) + Published(messages[..k], ok)
        invariant count == |Published(orders[..k], ok)|
        invariant sentEvents == old(sentEvents)
      {
        assert orders[..k + 1][..k] == orders[..k] && messages[..k + 1][..k] == messages[..k];
        if ok(k) {
          publishedCommits := publishedCommits + [CommitMessage(nodeNftId, poolId, batchId, orders[k].commitHash)];
          committedOrders := committedOrders + [orders[k]];
          count := count + 1;
        }
      }
      assert orders[..|orders|] == orders && messages[..|messages|] == messages;
    }

    /** Publishes the reveals of the chosen indices; all of them when the strategy is silent. */
    method OnRevealPhase(myCommitCount: nat, strategyResponse: Option<seq<nat>>, ok: nat -> bool) returns (count: nat)
      requires batchState.Valid()
      modifies this`publishedReveals
      ensures var indices := if strategyResponse.Some? then strategyResponse.value else AllIndices(myCommitCount);
        var messages := RevealMessages(committedOrders, indices, nodeNftId,
                          batchState.CurrentPoolId(nodeNftId), batchState.CurrentBatchId());
        && publishedReveals == old(publishedReveals) + Published(messages, ok)
        && count == |Published(messages, ok)|
    {
      var batchId, poolId := batchState.CurrentBatchId(), batchState.CurrentPoolId(nodeNftId);
      var indices := if strategyResponse.Some? then strategyResponse.value else AllIndices(myCommitCount);
      ghost var messages := RevealMessages(committedOrders, indices, nodeNftId, poolId, batchId);
      count := 0;
      for k := 0 to |indices|
        invariant publishedReveals == old(publishedReveals) + Published(messages[..k], ok)
        invariant count == |Published(messages[..k], ok)|
      {
        assert messages[..k + 1][..k] == messages[..k];
        if ok(k) {
          publishedReveals := publishedReveals
            + [RevealMessage(nodeNftId, poolId, batchId, RevealEntry(committedOrders, indices[k]))];
          count := count + 1;
        }
      }
      assert messages[..|messages|] == messages;
    }

    ghost function PoolInput(received: seq<RevealMessage>): MatchingInput
      requires batchState.Valid()
      reads this, batchState
    {
      MatchingInput(batchState.CurrentBatchId(), batchState.CurrentPoolId(nodeNftId),
                    Decoded(codec, CommittedEntries(committedOrders)) + Decoded(codec, RevealedEntries(received)),
                    marketConfigs)
    }

    /** Own committed orders first, then the received reveals, through the matching engine. */
    method OnMatchPhase(received: seq<RevealMessage>) returns (count: nat)
      requires batchState.Valid()
      modifies this`registeredMatches, this`currentMatches
      ensures currentMatches == Matches(old(PoolInput(received))) && count == |currentMatches|
      ensures registeredMatches == old(registeredMatches)
                + if count > 0 then [MatchRegistration(batchState.CurrentBatchId(), count)] else []
    {
      var batchId, poolId := batchState.CurrentBatchId(), batchState.CurrentPoolId(nodeNftId);
      var all := DecodeInto([], CommittedEntries(committedOrders));
      all := DecodeInto(all, RevealedEntries(received));
      assert all == PoolInput(received).revealed;
      if all == [] {
        currentMatches := [];
        OneSidedPool(PoolInput(received), BUY);
        return 0;
      }
      var found := RunMatching.RunMatching(MatchingInput(batchId, poolId, all, marketConfigs));
      count := |found|;
      if count > 0 { registeredMatches := registeredMatches + [MatchRegistration(batchId, count)]; }
      currentMatches := found;
    }

    method DecodeInto(all: seq<RevealedOrder>, entries: seq<Sealed>) returns (all': seq<RevealedOrder>)
      ensures all' == all + Decoded(codec, entries)
    {
      all' := all;
      for k := 0 to |entries|
        invariant all' == all + Decoded(codec, entries[..k])
      {
        assert entries[..k + 1][..k] == entries[..k];
        match codec.decode(entries[k].orderBytes) {
          case None =>
          case Some(order) => all' := all' + [RevealedOrder(order, entries[k].signature, codec.hash(order))];
        }
      }
      assert entries[..|entries|] == entries;
    }

    method OnSwapPhase() returns (count: nat)
      ensures count == |currentMatches|
    {
      count := |currentMatches|;
    }

    method TakeMatches() returns (taken: seq<Match>)
      modifies this`currentMatches
      ensures taken == old(currentMatches) && currentMatches == []
    {
      taken, currentMatches := currentMatches, [];
    }
  }

  lemma MatchNeedsBothSides(input: MatchingInput)
    ensures Matches(input) != [] ==>
      exists b, s :: b in input.revealed && s in input.revealed && b.order.side == BUY && s.order.side == SELL
  {
    if Matches(input) != [] {
      MatchesSound(input);
      assert SoundMatch(input, Matches(input)[0]);
    }
  }

  /** A pool without buys, or without sells, has no matches. */
  lemma OneSidedPool(input: MatchingInput, side: nat)
    requires side == BUY || side == SELL
    requires forall r :: r in input.revealed ==> r.order.side != side
    ensures Matches(input) == []
  {
    MatchNeedsBothSides(input);
  }

  // ----- agreement between nodes ---------------------------------------------------------

  lemma {:induction false} DecodedAppend(codec: Codec, a: seq<Sealed>, b: seq<Sealed>)
    ensures Decoded(codec, a + b) == Decoded(codec, a) + Decoded(codec, b)
  {
    if b == [] {
      assert a + b == a;
    } else {
      var front := b[..|b| - 1];
      assert (a + b)[..|a + b| - 1] == a + front;
      DecodedAppend(codec, a, front);
    }
  }

  lemma DecodedWithout(codec: Codec, entries: seq<Sealed>, i: nat)
    requires i < |entries|
    ensures var rest := entries[..i] + entries[i + 1..];
      && multiset(entries) == multiset(rest) + multiset{entries[i]}
      && multiset(Decoded(codec, entries)) == multiset(Decoded(codec, rest)) + multiset(RevealedFrom(codec, entries[i]))
  {
    var x := [entries[i]];
    assert entries == entries[..i] + x + entries[i + 1..];
    assert x[..0] == [] && Decoded(codec, x) == [] + RevealedFrom(codec, entries[i]) == RevealedFrom(codec, entries[i]);
    DecodedAppend(codec, entries[..i] + x, entries[i + 1..]);
    DecodedAppend(codec, entries[..i], x);
    DecodedAppend(codec, entries[..i], entries[i + 1..]);
  }

  lemma {:induction false} DecodedPermuted(codec: Codec, a: seq<Sealed>, b: seq<Sealed>)
    requires multiset(a) == multiset(b)
    ensures multiset(Decoded(codec, a)) == multiset(Decoded(codec, b))
    decreases |a|
  {
    if a == [] {
      assert |multiset(b)| == 0;
    } else {
      assert a[0] in multiset(b);
      var i :| 0 <= i < |b| && b[i] == a[0];
      DecodedWithout(codec, a, 0);
      DecodedWithout(codec, b, i);
      SameRest(multiset(a[..0] + a[1..]), multiset(b[..i] + b[i + 1..]), a[0]);
      DecodedPermuted(codec, a[..0] + a[1..], b[..i] + b[i + 1..]);
    }
  }

  lemma SameRest<T>(a: multiset<T>, b: multiset<T>, x: T)
    requires a + multiset{x} == b + multiset{x}
    ensures a == b
  {
    assert a == (a + multiset{x}) - multiset{x};
    assert b == (b + multiset{x}) - multiset{x};
  }

  /** What a node with these committed and received entries computes. */
  ghost function NodeMatches(batchId: nat, poolId: U64, markets: seq<MarketConfig>, codec: Codec, own: seq<Sealed>, received: seq<Sealed>): seq<Match> {
    Matches(MatchingInput(batchId, poolId, Decoded(codec, own) + Decoded(codec, received), markets))
  }

  /** Two nodes whose own and received entries make up the same pool compute the same matches. */
  lemma NodeAgreement(
    batchId: nat, poolId: U64, marketsA: seq<MarketConfig>, marketsB: seq<MarketConfig>, codec: Codec,
    ownA: seq<Sealed>, receivedA: seq<Sealed>, ownB: seq<Sealed>, receivedB: seq<Sealed>)
    requires DistinctSymbols(marketsA) && DistinctSymbols(marketsB) && multiset(marketsA) == multiset(marketsB)
    requires multiset(ownA) + multiset(receivedA) == multiset(ownB) + multiset(receivedB)
    requires HashesIdentify(Decoded(codec, ownA + receivedA))
    ensures NodeMatches(batchId, poolId, marketsA, codec, ownA, receivedA)
         == NodeMatches(batchId, poolId, marketsB, codec, ownB, receivedB)
  {
    assert multiset(ownA + receivedA) == multiset(ownB + receivedB);
    DecodedPermuted(codec, ownA + receivedA, ownB + receivedB);
    DecodedAppend(codec, ownA, receivedA);
    DecodedAppend(codec, ownB, receivedB);
    MarketOrderIndependence(
      MatchingInput(batchId, poolId, Decoded(codec, ownA) + Decoded(codec, receivedA), marketsA),
      MatchingInput(batchId, poolId, Decoded(codec, ownB) + Decoded(codec, receivedB), marketsB));
  }

  /** Two orchestrators in the same batch and pool, with the same markets in any order, whose committed orders and
      received reveals make up the same pool, compute the same matches though each lists its own orders first. */
  lemma OrchestratorsAgree(a: Orchestrator, b: Orchestrator, receivedA: seq<RevealMessage>, receivedB: seq<RevealMessage>)
    requires a.batchState.Valid() && b.batchState.Valid() && a.codec == b.codec
    requires a.batchState.CurrentBatchId() == b.batchState.CurrentBatchId()
    requires a.batchState.CurrentPoolId(a.nodeNftId) == b.batchState.CurrentPoolId(b.nodeNftId)
    requires DistinctSymbols(a.marketConfigs) && DistinctSymbols(b.marketConfigs)
    requires multiset(a.marketConfigs) == multiset(b.marketConfigs)
    requires multiset(CommittedEntries(a.committedOrders)) + multiset(RevealedEntries(receivedA))
          == multiset(CommittedEntries(b.committedOrders)) + multiset(RevealedEntries(receivedB))
    requires HashesIdentify(a.PoolInput(receivedA).revealed)
    ensures Matches(a.PoolInput(receivedA)) == Matches(b.PoolInput(receivedB))
  {
    DecodedAppend(a.codec, CommittedEntries(a.committedOrders), RevealedEntries(receivedA));
    NodeAgreement(a.batchState.CurrentBatchId(), a.batchState.CurrentPoolId(a.nodeNftId),
                  a.marketConfigs, b.marketConfigs, a.codec,
                  CommittedEntries(a.committedOrders), RevealedEntries(receivedA),
                  CommittedEntries(b.committedOrders), RevealedEntries(receivedB));
  }

  /** A reveal beyond the committed orders is a placeholder: the index as one byte, under 64 zero bytes. */
  lemma PlaceholderReveal(orders: seq<ValidatedOrder>, index: nat)
    requires index >= |orders|
    ensures |RevealEntry(orders, index).orderBytes| == 1 && RevealEntry(orders, index).orderBytes[0] == index % 256
    ensures |RevealEntry(orders, index).signature| == 64 && forall k :: 0 <= k < 64 ==> RevealEntry(orders, index).signature[k] == 0
  {
  }

  /** A silent strategy reveals every committed order, bytes and signature unchanged. */
  lemma SilenceRevealsAll(orders: seq<ValidatedOrder>, nftId: U64, poolId: U64, batchId: nat)
    ensures var messages := RevealMessages(orders, AllIndices(|orders|), nftId, poolId, batchId);
      RevealedEntries(Published(messages, k => true)) == CommittedEntries(orders)
  {
    PublishedAll(RevealMessages(orders, AllIndices(|orders|), nftId, poolId, batchId), k => true);
  }

  lemma {:induction false} PublishedAll<T>(items: seq<T>, ok: nat -> bool)
    requires forall k :: 0 <= k < |items| ==> ok(k)
    ensures Published(items, ok) == items
  {
    if items != [] { PublishedAll(items[..|items| - 1], ok); }
  }

  ghost function AllEntries(committed: seq<seq<Sealed>>): multiset<Sealed> {
    if committed == [] then multiset{} else AllEntries(committed[..|committed| - 1]) + multiset(committed[|committed| - 1])
  }

  lemma {:induction false} EntriesIncluded(committed: seq<seq<Sealed>>, k: nat)
    requires k < |committed|
    ensures multiset(committed[k]) <= AllEntries(committed)
  {
    if k < |committed| - 1 { EntriesIncluded(committed[..|committed| - 1], k); }
  }

  /** In a pool where every node reveals all it committed and receives what the others revealed, in any order,
      any two nodes compute the same matches. */
  lemma PoolAgreement(
    batchId: nat, poolId: U64, markets: seq<MarketConfig>, codec: Codec,
    committed: seq<seq<Sealed>>, received: seq<seq<Sealed>>, a: nat, b: nat)
    requires DistinctSymbols(markets) && |received| == |committed| && a < |committed| && b < |committed|
    requires forall k :: 0 <= k < |committed| ==> multiset(received[k]) == AllEntries(committed) - multiset(committed[k])
    requires HashesIdentify(Decoded(codec, committed[a] + received[a]))
    ensures NodeMatches(batchId, poolId, markets, codec, committed[a], received[a])
         == NodeMatches(batchId, poolId, markets, codec, committed[b], received[b])
  {
    EntriesIncluded(committed, a);
    EntriesIncluded(committed, b);
    NodeAgreement(batchId, poolId, markets, markets, codec, committed[a], received[a], committed[b], received[b]);
  }

  // ----- a committed order that is not revealed ------------------------------------------------

  /** A pool of one buy and one sell, in either order. */
  predicate PairPool(pool: seq<RevealedOrder>, buy: RevealedOrder, sell: RevealedOrder) {
    && (pool == [buy, sell] || pool == [sell, buy])
    && buy.order.symbol == sell.order.symbol && buy.order.side == BUY && sell.order.side == SELL
  }

  lemma OfPair(first: RevealedOrder, second: RevealedOrder, symbol: Symbol, side: nat)
    ensures OfSymbol([first, second], symbol)
         == (if first.order.symbol == symbol then [first] else []) + if second.order.symbol == symbol then [second] else []
    ensures OfSide([first, second], side)
         == (if first.order.side == side then [first] else []) + if second.order.side == side then [second] else []
  {
    assert [first, second][..1] == [first] && [first][..0] == [];
    assert OfSymbol([first], symbol) == if first.order.symbol == symbol then [first] else [];
    assert OfSide([first], side) == if first.order.side == side then [first] else [];
  }

  lemma PairEntries(pool: seq<RevealedOrder>, buy: RevealedOrder, sell: RevealedOrder)
    requires PairPool(pool, buy, sell)
    ensures var symbol := buy.order.symbol;
      OfSymbol(pool, symbol) == pool && OfSide(pool, BUY) == [buy] && OfSide(pool, SELL) == [sell]
  {
    OfPair(pool[0], pool[1], buy.order.symbol, BUY);
    OfPair(pool[0], pool[1], buy.order.symbol, SELL);
    assert pool == [pool[0], pool[1]] == [pool[0]] + [pool[1]];
  }

  lemma PairBooks(pool: seq<RevealedOrder>, buy: RevealedOrder, sell: RevealedOrder)
    requires PairPool(pool, buy, sell)
    ensures Buys(pool, buy.order.symbol) == [buy] && Sells(pool, buy.order.symbol) == [sell]
  {
    PairEntries(pool, buy, sell);
    SortOne(BuyBefore, buy);
    SortOne(SellBefore, sell);
  }

  lemma SortOne(le: (RevealedOrder, RevealedOrder) -> bool, r: RevealedOrder)
    ensures Sort(le, [r]) == [r]
  {
    assert [r][..0] == [];
  }

  lemma PairMatches(input: MatchingInput, buy: RevealedOrder, sell: RevealedOrder)
    requires PairPool(input.revealed, buy, sell) && Crosses(buy, sell) && !SameNft(buy, sell)
    requires var markets, symbol := MarketMap(input.markets), buy.order.symbol;
      symbol in markets && markets[symbol] <= buy.order.quantity && markets[symbol] <= sell.order.quantity
    ensures Matches(input) != []
  {
    PairBooks(input.revealed, buy, sell);
    PairFills(buy, sell, MarketMap(input.markets)[buy.order.symbol]);
    assert input.revealed[0].order.symbol == buy.order.symbol;
    SymbolInMatches(input, buy.order.symbol);
  }

  lemma PairFills(buy: RevealedOrder, sell: RevealedOrder, minQuantity: nat)
    requires Crosses(buy, sell) && !SameNft(buy, sell)
    requires minQuantity <= buy.order.quantity && minQuantity <= sell.order.quantity
    ensures Fills([buy], [sell], minQuantity) != []
  {
    assert Decide([buy], [sell], minQuantity, Start([buy], [sell])) == TradeTop;
  }

  lemma OneMarket(symbol: Symbol, minQuantity: U64)
    ensures MarketMap([MarketConfig(symbol, minQuantity)]) == map[symbol := minQuantity]
  {
    assert [MarketConfig(symbol, minQuantity)][..0] == [];
  }

  lemma SymbolInMatches(input: MatchingInput, symbol: Symbol)
    requires symbol in SymbolsIn(input.revealed) && symbol in MarketMap(input.markets)
    requires SymbolFills(input, symbol, MarketMap(input.markets)[symbol]) != []
    ensures Matches(input) != []
  {
    assert |SymbolMatches(input, symbol)| == |SymbolFills(input, symbol, MarketMap(input.markets)[symbol])|;
    SortedMembers(SymbolsIn(input.revealed));
    AllMatchesNonEmpty(input, SortedStrings(SymbolsIn(input.revealed)), symbol);
  }

  lemma {:induction false} AllMatchesNonEmpty(input: MatchingInput, symbols: seq<Symbol>, symbol: Symbol)
    requires symbol in symbols && SymbolMatches(input, symbol) != []
    ensures AllMatches(input, symbols) != []
  {
    if symbols[|symbols| - 1] != symbol { AllMatchesNonEmpty(input, symbols[..|symbols| - 1], symbol); }
  }

  lemma LoneDecoded(codec: Codec, entry: Sealed)
    ensures Decoded(codec, [entry]) == RevealedFrom(codec, entry)
  {
    assert [entry][..0] == [] && [] + RevealedFrom(codec, entry) == RevealedFrom(codec, entry);
  }

  /** Withholding one of two crossing orders splits their pool: the node that committed it still matches it, the other
      cannot. */
  lemma WithheldRevealSplits(
    batchId: nat, poolId: U64, markets: seq<MarketConfig>, codec: Codec, own: Sealed, other: Sealed,
    mine: RevealedOrder, theirs: RevealedOrder, buy: RevealedOrder, sell: RevealedOrder)
    requires RevealedFrom(codec, own) == [mine] && RevealedFrom(codec, other) == [theirs]
    requires PairPool([mine, theirs], buy, sell) && Crosses(buy, sell) && !SameNft(buy, sell)
    requires var minimums, symbol := MarketMap(markets), buy.order.symbol;
      symbol in minimums && minimums[symbol] <= buy.order.quantity && minimums[symbol] <= sell.order.quantity
    ensures NodeMatches(batchId, poolId, markets, codec, [own], [other]) != NodeMatches(batchId, poolId, markets, codec, [other], [])
  {
    LoneDecoded(codec, own);
    LoneDecoded(codec, other);
    assert [mine] + [theirs] == [mine, theirs] && [theirs] + [] == [theirs];
    PairMatches(MatchingInput(batchId, poolId, [mine, theirs], markets), buy, sell);
    assert [mine, theirs][0] == mine && [mine, theirs][1] == theirs && [buy, sell][1] == sell && [sell, buy][1] == buy;
    OneSidedPool(MatchingInput(batchId, poolId, [theirs], markets), if theirs == buy then SELL else BUY);
  }
}
