/** From admission to settlement: what was admitted against the projected balances can always be reserved. */
module Solvency {
  import opened Basics
  import opened Sums
  import opened Sorting
  import opened Engine
  import opened EngineFacts
  import opened RunMatching
  import opened RunFacts
  import opened Convert
  import E = Escrow
  import A = ActiveCache

  type Decimals = map<Token, nat>

  // ----- registering matches ------------------------------------------------------

  /** Settlement takes the node for the seller whenever it is not the buyer. */
  function RegisterSide(m: Match, own: U64): E.Side {
    if m.buyer.order.nftId == own then E.Buy else E.Sell
  }

  /** The scale of a symbol as settlement computes it. */
  function SettleDivisor(decimals: Decimals, symbol: Symbol): nat {
    var (base, quote) := SettlementTokens(symbol);
    Divisor(DecimalsOf(decimals, base), DecimalsOf(decimals, quote))
  }

  /** Settlement divides by the scale of every match. */
  predicate AllDivisible(decimals: Decimals, ms: seq<Match>) {
    forall k :: 0 <= k < |ms| ==> SettleDivisor(decimals, ms[k].symbol) > 0
  }

  ghost function Register(balances: E.Balances, m: Match, own: U64, decimals: Decimals): E.Step
    requires SettleDivisor(decimals, m.symbol) > 0
  {
    var (base, quote) := SettlementTokens(m.symbol);
    E.Applied(balances, m.matchHash, RegisterSide(m, own), base, quote,
              m.fillQuantity, m.buyer.order.price, m.settlementPrice, SettleDivisor(decimals, m.symbol))
  }

  /** Which matches are taken back right after their registration. */
  type Skip = Match -> bool

  /** A match this node pays gas for is skipped when the cache knows its buyer or its seller as inactive; `readAt` is the
      time at which an NFT is looked up for a match. */
  function Inactive(entries: A.Entries, ttl: nat, readAt: (Match, U64) -> nat, own: U64): Skip {
    (m: Match) =>
      var buyer, seller := m.buyer.order.nftId, m.seller.order.nftId;
      m.gasPayerNftId == own &&
      (A.Hit(entries, buyer, ttl, readAt(m, buyer)) == Some(false) || A.Hit(entries, seller, ttl, readAt(m, seller)) == Some(false))
  }

  /** In terms of what was observed: the node pays gas, and the last observation of a party it still holds, made less than
      the time to live ago, was that it is inactive. */
  lemma InactiveExactly(
    ops: seq<A.Op>, states: seq<A.Entries>, max: nat, ttl: nat, readAt: (Match, U64) -> nat, own: U64, m: Match)
    requires max >= 1 && A.Behaviour(ops, states, max)
    ensures Inactive(states[|ops|], ttl, readAt, own)(m) <==>
      m.gasPayerNftId == own &&
      (ObservedDead(ops, states, ttl, m.buyer.order.nftId, readAt(m, m.buyer.order.nftId))
       || ObservedDead(ops, states, ttl, m.seller.order.nftId, readAt(m, m.seller.order.nftId)))
  {
    var buyer, seller := m.buyer.order.nftId, m.seller.order.nftId;
    A.HitIsLatest(ops, states, max, buyer, ttl, readAt(m, buyer), false);
    A.HitIsLatest(ops, states, max, seller, ttl, readAt(m, seller), false);
  }

  ghost predicate ObservedDead(ops: seq<A.Op>, states: seq<A.Entries>, ttl: nat, nft: U64, now: nat)
    requires |states| == |ops| + 1
  {
    exists e :: nft in states[|ops|] && A.Latest(ops, nft) == Some(e) && e.isActive == false && ttl > 0 && now < e.fetchedAt + ttl
  }

  /** The balances after a list of matches: those still registered, those skipped and taken back, those that failed. */
  datatype Registration = Registration(balances: E.Balances, registered: seq<Match>, skipped: seq<Match>, failed: seq<Match>)

  /** One turn of the swap loop: a match that fails is passed over, one that is skipped is released again. */
  ghost function Turn(before: Registration, m: Match, own: U64, decimals: Decimals, skip: Skip): Registration
    requires SettleDivisor(decimals, m.symbol) > 0
  {
    var step := Register(before.balances, m, own, decimals);
    if step.result.Err? then before.(balances := step.balances, failed := before.failed + [m])
    else if skip(m) then
      before.(balances := E.Released(step.balances, m.matchHash).balances, skipped := before.skipped + [m])
    else before.(balances := step.balances, registered := before.registered + [m])
  }

  ghost function RegisterAll(balances: E.Balances, ms: seq<Match>, own: U64, decimals: Decimals, skip: Skip): Registration
    requires AllDivisible(decimals, ms)
  {
    if ms == [] then Registration(balances, [], [], [])
    else Turn(RegisterAll(balances, ms[..|ms| - 1], own, decimals, skip), ms[|ms| - 1], own, decimals, skip)
  }

  method RegisterMatch(tracker: E.EscrowTracker, m: Match, own: U64, decimals: Decimals) returns (r: Result<(), E.EscrowError>)
    requires SettleDivisor(decimals, m.symbol) > 0
    modifies tracker
    ensures E.Step(tracker.balances, r) == Register(old(tracker.balances), m, own, decimals)
  {
    var (base, quote) := SettlementTokens(m.symbol);
    r := tracker.ApplyMatch(m.matchHash, RegisterSide(m, own), base, quote, m.fillQuantity,
           m.buyer.order.price, m.settlementPrice, DecimalsOf(decimals, base), DecimalsOf(decimals, quote));
  }

  /** Whether the cache has a party of the match as inactive; both are looked up. */
  method PartyInactive(cache: A.IsActiveCache, m: Match, readAt: (Match, U64) -> nat) returns (dead: bool)
    ensures dead == Inactive(cache.entries, cache.ttl, readAt, m.gasPayerNftId)(m)
  {
    var buyer := cache.Get(m.buyer.order.nftId, readAt(m, m.buyer.order.nftId));
    var seller := cache.Get(m.seller.order.nftId, readAt(m, m.seller.order.nftId));
    dead := buyer == Some(false) || seller == Some(false);
  }

  method RegisterMatches(
    tracker: E.EscrowTracker, cache: A.IsActiveCache, ms: seq<Match>, own: U64, decimals: Decimals, readAt: (Match, U64) -> nat)
    returns (registered: seq<Match>, skipped: seq<Match>, failed: seq<Match>)
    requires AllDivisible(decimals, ms)
    modifies tracker
    ensures Registration(tracker.balances, registered, skipped, failed)
         == RegisterAll(old(tracker.balances), ms, own, decimals, Inactive(cache.entries, cache.ttl, readAt, own))
  {
    registered, skipped, failed := [], [], [];
    ghost var skip := Inactive(cache.entries, cache.ttl, readAt, own);
    for k := 0 to |ms|
      invariant AllDivisible(decimals, ms[..k])
      invariant Registration(tracker.balances, registered, skipped, failed)
             == RegisterAll(old(tracker.balances), ms[..k], own, decimals, skip)
    {
      assert ms[..k + 1][..k] == ms[..k];
      var m := ms[k];
      var r := RegisterMatch(tracker, m, own, decimals);
      if r.Err? {
        failed := failed + [m];
        continue;
      }
      var dead := false;
      if m.gasPayerNftId == own { dead := PartyInactive(cache, m, readAt); }
      if dead {
        var _ := tracker.ReleasePending(m.matchHash);
        skipped := skipped + [m];
      } else {
        registered := registered + [m];
      }
    }
    assert ms[..|ms|] == ms;
  }

  // ----- when every match can be registered ------------------------------------------

  /** The token and the u64 amount that registering a match reserves. */
  function Outgoing(m: Match, own: U64, decimals: Decimals): (Token, U64)
    requires SettleDivisor(decimals, m.symbol) > 0
  {
    var (base, quote) := SettlementTokens(m.symbol);
    if RegisterSide(m, own) == E.Buy
    then (quote, E.QuoteAmount(m.fillQuantity, m.buyer.order.price, SettleDivisor(decimals, m.symbol)))
    else (base, m.fillQuantity)
  }

  function ReservesOf(m: Match, token: Token, own: U64, decimals: Decimals): nat {
    if SettleDivisor(decimals, m.symbol) == 0 then 0
    else
      var (outToken, outflow) := Outgoing(m, own, decimals);
      if outToken == token then outflow else 0
  }

  function Reserves(token: Token, own: U64, decimals: Decimals): Match -> nat {
    (m: Match) => ReservesOf(m, token, own, decimals)
  }

  ghost predicate NonePending(balances: E.Balances, ms: seq<Match>) {
    forall k :: 0 <= k < |ms| ==> !E.HasPending(balances, ms[k].matchHash)
  }

  lemma ReservedProjected(b: E.TokenBalance, h: MatchHash, outflow: U64)
    requires E.SolventToken(b) && h !in b.pendingOut && outflow <= E.Projected(b)
    ensures var b' := b.(pendingOut := b.pendingOut[h := outflow]);
      E.SolventToken(b') && E.Projected(b') == E.Projected(b) - outflow
  {
    E.ReservedSolvent(b, h, outflow);
    E.SumInsert(b.pendingOut, h, outflow);
    E.ProjectedExact(b);
    E.ProjectedExact(b.(pendingOut := b.pendingOut[h := outflow]));
  }

  /** An expected inflow changes neither what is held nor what is projected. */
  lemma InflowNeutral(b: E.TokenBalance, pendingIn: E.Pending)
    ensures E.Projected(b.(pendingIn := pendingIn)) == E.Projected(b)
    ensures E.SolventToken(b.(pendingIn := pendingIn)) <==> E.SolventToken(b)
  {
  }

  function AfterReserve(balances: E.Balances, h: MatchHash, outToken: Token, outflow: U64, token: Token): E.TokenBalance {
    var b := E.Of(balances, token);
    if token == outToken then b.(pendingOut := b.pendingOut[h := outflow]) else b
  }

  lemma BookedShape(
    balances: E.Balances, h: MatchHash, outToken: Token, outflow: U64, inToken: Token, inflow: U64, token: Token)
    ensures var b := AfterReserve(balances, h, outToken, outflow, token);
      E.Of(E.Booked(balances, h, outToken, outflow, inToken, inflow), token)
        == if token == inToken then b.(pendingIn := b.pendingIn[h := inflow]) else b
  {
  }

  lemma AfterReserveProjected(balances: E.Balances, h: MatchHash, outToken: Token, outflow: U64, token: Token)
    requires E.Solvent(balances) && !E.HasPending(balances, h) && outflow <= E.Projected(E.Of(balances, outToken))
    ensures var b := AfterReserve(balances, h, outToken, outflow, token);
      && E.SolventToken(b)
      && E.Projected(b) == E.Projected(E.Of(balances, token)) - if token == outToken then outflow else 0
  {
    var b := E.Of(balances, token);
    E.SolventUpdate(balances, token, b);
    if token == outToken {
      E.NotPendingAnywhere(balances, h, token);
      ReservedProjected(b, h, outflow);
    }
  }

  lemma BookedToken(
    balances: E.Balances, h: MatchHash, outToken: Token, outflow: U64, inToken: Token, inflow: U64, token: Token)
    requires E.Solvent(balances) && !E.HasPending(balances, h) && outflow <= E.Projected(E.Of(balances, outToken))
    ensures var b := E.Of(E.Booked(balances, h, outToken, outflow, inToken, inflow), token);
      && E.SolventToken(b)
      && E.Projected(b) == E.Projected(E.Of(balances, token)) - if token == outToken then outflow else 0
  {
    var b := AfterReserve(balances, h, outToken, outflow, token);
    BookedShape(balances, h, outToken, outflow, inToken, inflow, token);
    AfterReserveProjected(balances, h, outToken, outflow, token);
    InflowNeutral(b, b.pendingIn[h := inflow]);
  }

  lemma BookedProjected(balances: E.Balances, h: MatchHash, outToken: Token, outflow: U64, inToken: Token, inflow: U64)
    requires E.Solvent(balances) && !E.HasPending(balances, h) && outflow <= E.Projected(E.Of(balances, outToken))
    ensures var booked := E.Booked(balances, h, outToken, outflow, inToken, inflow);
      && E.Solvent(booked)
      && (forall token :: E.Projected(E.Of(booked, token))
            == E.Projected(E.Of(balances, token)) - if token == outToken then outflow else 0)
      && (forall g :: g != h ==> (E.HasPending(booked, g) <==> E.HasPending(balances, g)))
  {
    var booked := E.Booked(balances, h, outToken, outflow, inToken, inflow);
    forall token
      ensures E.SolventToken(E.Of(booked, token))
      ensures E.Projected(E.Of(booked, token)) == E.Projected(E.Of(balances, token)) - if token == outToken then outflow else 0
    {
      BookedToken(balances, h, outToken, outflow, inToken, inflow, token);
    }
    forall token | token in booked ensures E.SolventToken(booked[token]) {
      assert booked[token] == E.Of(booked, token);
    }
    BookedPending(balances, h, outToken, outflow, inToken, inflow);
  }

  lemma BookedPending(balances: E.Balances, h: MatchHash, outToken: Token, outflow: U64, inToken: Token, inflow: U64)
    ensures var booked := E.Booked(balances, h, outToken, outflow, inToken, inflow);
      forall g :: g != h ==> (E.HasPending(booked, g) <==> E.HasPending(balances, g))
  {
    var booked := E.Booked(balances, h, outToken, outflow, inToken, inflow);
    forall g, token | g != h
      ensures token in booked && E.PendingIn(booked[token], g) <==> token in balances && E.PendingIn(balances[token], g)
    {
    }
  }

  /** What one registration leaves behind: a solvent tracker, less the reservation, with one more pending hash. */
  ghost predicate Reserved(after: E.Balances, before: E.Balances, m: Match, own: U64, decimals: Decimals) {
    && E.Solvent(after)
    && (forall token :: E.Projected(E.Of(after, token)) == E.Projected(E.Of(before, token)) - Reserves(token, own, decimals)(m))
    && (forall g :: g != m.matchHash ==> (E.HasPending(after, g) <==> E.HasPending(before, g)))
  }

  /** Nothing a later registration could see has changed. */
  ghost predicate Unmoved(after: E.Balances, before: E.Balances) {
    && E.Solvent(after)
    && (forall token :: E.Projected(E.Of(after, token)) == E.Projected(E.Of(before, token)))
    && (forall g :: E.HasPending(after, g) <==> E.HasPending(before, g))
  }

  lemma PendingOf(balances: E.Balances, h: MatchHash)
    ensures E.HasPending(balances, h) <==> exists token :: E.PendingIn(E.Of(balances, token), h)
  {
    if token: Token :| E.PendingIn(E.Of(balances, token), h) {
      assert token in balances;
    }
    if E.HasPending(balances, h) {
      var token :| token in balances && E.PendingIn(balances[token], h);
      assert E.PendingIn(E.Of(balances, token), h);
    }
  }

  lemma SameUnmoved(after: E.Balances, before: E.Balances)
    requires E.Solvent(before) && E.SameBalances(after, before)
    ensures Unmoved(after, before)
  {
    forall token | token in after ensures E.SolventToken(after[token]) {
      assert E.Of(after, token) == E.Of(before, token);
    }
    forall g ensures E.HasPending(after, g) <==> E.HasPending(before, g) {
      PendingOf(after, g);
      PendingOf(before, g);
      assert forall token :: E.PendingIn(E.Of(after, token), g) <==> E.PendingIn(E.Of(before, token), g);
    }
  }

  /** One registration, by the token and amount it reserves. */
  lemma RegisterOutcome(balances: E.Balances, m: Match, own: U64, decimals: Decimals) returns (inToken: Token, inflow: U64)
    requires SettleDivisor(decimals, m.symbol) > 0 && !E.HasPending(balances, m.matchHash)
    ensures var step := Register(balances, m, own, decimals);
      var (outToken, outflow) := Outgoing(m, own, decimals);
      && (step.result.Ok? <==> outflow <= E.Projected(E.Of(balances, outToken)))
      && (step.result.Ok? ==> step.balances == E.Booked(balances, m.matchHash, outToken, outflow, inToken, inflow))
      && (step.result.Err? ==> E.SameBalances(step.balances, balances))
  {
    var (base, quote) := SettlementTokens(m.symbol);
    var side, divisor := RegisterSide(m, own), SettleDivisor(decimals, m.symbol);
    inToken := if side == E.Buy then base else quote;
    inflow := if side == E.Buy then m.fillQuantity else E.QuoteAmount(m.fillQuantity, m.settlementPrice, divisor);
    E.AppliedOutcome(balances, m.matchHash, side, base, quote, m.fillQuantity, m.buyer.order.price, m.settlementPrice, divisor);
  }

  /** One registration succeeds exactly when its reservation is affordable, and takes just that; else nothing moves. */
  lemma RegisterExact(balances: E.Balances, m: Match, own: U64, decimals: Decimals)
    requires SettleDivisor(decimals, m.symbol) > 0
    requires E.Solvent(balances) && !E.HasPending(balances, m.matchHash)
    ensures var step := Register(balances, m, own, decimals);
      && (step.result.Ok? <==> forall token :: Reserves(token, own, decimals)(m) <= E.Projected(E.Of(balances, token)))
      && (step.result.Ok? ==> Reserved(step.balances, balances, m, own, decimals))
      && (step.result.Err? ==> Unmoved(step.balances, balances))
  {
    var step := Register(balances, m, own, decimals);
    var inToken, inflow := RegisterOutcome(balances, m, own, decimals);
    var (outToken, outflow) := Outgoing(m, own, decimals);
    assert forall token :: Reserves(token, own, decimals)(m) == if token == outToken then outflow else 0;
    if outflow <= E.Projected(E.Of(balances, outToken)) {
      BookedProjected(balances, m.matchHash, outToken, outflow, inToken, inflow);
    } else {
      SameUnmoved(step.balances, balances);
      assert Reserves(outToken, own, decimals)(m) == outflow;
    }
  }

  ghost predicate Affordable(balances: E.Balances, ms: seq<Match>, own: U64, decimals: Decimals) {
    forall token :: Total(ms, Reserves(token, own, decimals)) <= E.Projected(E.Of(balances, token))
  }

  /** After any list of matches the tracker is solvent, less what is still registered, with only their hashes added. */
  ghost predicate Settled(r: Registration, balances: E.Balances, ms: seq<Match>, own: U64, decimals: Decimals) {
    && E.Solvent(r.balances)
    && (forall token :: E.Projected(E.Of(r.balances, token))
          == E.Projected(E.Of(balances, token)) - Total(r.registered, Reserves(token, own, decimals)))
    && (forall g :: E.HasPending(r.balances, g) ==> E.HasPending(balances, g) || Hashed(ms, g))
  }

  ghost predicate Hashed(ms: seq<Match>, h: MatchHash) {
    exists k :: 0 <= k < |ms| && ms[k].matchHash == h
  }

  lemma HashedSnoc(ms: seq<Match>, m: Match, h: MatchHash)
    ensures Hashed(ms + [m], h) <==> Hashed(ms, h) || m.matchHash == h
  {
    if Hashed(ms, h) {
      var k :| 0 <= k < |ms| && ms[k].matchHash == h;
      assert (ms + [m])[k].matchHash == h;
    }
    assert (ms + [m])[|ms|] == m;
  }

  // ----- one turn -------------------------------------------------------------------

  /** What the match reserves is projected. */
  ghost predicate Fits(balances: E.Balances, m: Match, own: U64, decimals: Decimals) {
    forall token :: Reserves(token, own, decimals)(m) <= E.Projected(E.Of(balances, token))
  }

  /** A registration that is released right away leaves nothing to see. */
  lemma ReleasedUnmoved(balances: E.Balances, m: Match, own: U64, decimals: Decimals)
    requires SettleDivisor(decimals, m.symbol) > 0 && E.Solvent(balances) && !E.HasPending(balances, m.matchHash)
    requires Register(balances, m, own, decimals).result.Ok?
    ensures Unmoved(E.Released(Register(balances, m, own, decimals).balances, m.matchHash).balances, balances)
  {
    var inToken, inflow := RegisterOutcome(balances, m, own, decimals);
    var (outToken, outflow) := Outgoing(m, own, decimals);
    E.BookedRoundTrip(balances, m.matchHash, outToken, outflow, inToken, inflow);
    SameUnmoved(E.Released(Register(balances, m, own, decimals).balances, m.matchHash).balances, balances);
  }

  /** A match that fits stays registered or is skipped, one that does not fails; only the first changes what is projected. */
  lemma TurnExact(before: Registration, m: Match, own: U64, decimals: Decimals, skip: Skip)
    requires SettleDivisor(decimals, m.symbol) > 0
    requires E.Solvent(before.balances) && !E.HasPending(before.balances, m.matchHash)
    ensures var after := Turn(before, m, own, decimals, skip);
      if !Fits(before.balances, m, own, decimals) then
        after == before.(balances := after.balances, failed := before.failed + [m]) && Unmoved(after.balances, before.balances)
      else if skip(m) then
        after == before.(balances := after.balances, skipped := before.skipped + [m]) && Unmoved(after.balances, before.balances)
      else
        && after == before.(balances := after.balances, registered := before.registered + [m])
        && Reserved(after.balances, before.balances, m, own, decimals)
  {
    RegisterExact(before.balances, m, own, decimals);
    if Register(before.balances, m, own, decimals).result.Ok? { ReleasedUnmoved(before.balances, m, own, decimals); }
  }

  lemma SettledStep(
    before: Registration, balances: E.Balances, front: seq<Match>, m: Match, own: U64, decimals: Decimals, skip: Skip)
    requires SettleDivisor(decimals, m.symbol) > 0 && Settled(before, balances, front, own, decimals)
    requires !E.HasPending(before.balances, m.matchHash)
    ensures Settled(Turn(before, m, own, decimals, skip), balances, front + [m], own, decimals)
  {
    TurnExact(before, m, own, decimals, skip);
    forall token
      ensures Total(before.registered + [m], Reserves(token, own, decimals))
           == Total(before.registered, Reserves(token, own, decimals)) + Reserves(token, own, decimals)(m)
    {
      TotalSnoc(before.registered, m, Reserves(token, own, decimals));
    }
    forall g ensures Hashed(front + [m], g) <==> Hashed(front, g) || m.matchHash == g {
      HashedSnoc(front, m, g);
    }
  }

  // ----- a whole list ---------------------------------------------------------------

  /** What a list asks of a tracker, and the tracker of the list: scales, distinct hashes, none of them pending. */
  ghost predicate Registrable(balances: E.Balances, ms: seq<Match>, decimals: Decimals) {
    AllDivisible(decimals, ms) && DistinctMatches(ms) && NonePending(balances, ms)
  }

  /** The side conditions of a list hold of its front; its last hash is new to the front. */
  lemma FrontMatches(balances: E.Balances, ms: seq<Match>, decimals: Decimals)
    requires Registrable(balances, ms, decimals) && ms != []
    ensures var front, m := ms[..|ms| - 1], ms[|ms| - 1];
      && Registrable(balances, front, decimals)
      && SettleDivisor(decimals, m.symbol) > 0 && !E.HasPending(balances, m.matchHash) && !Hashed(front, m.matchHash)
      && ms == front + [m]
  {
    var front := ms[..|ms| - 1];
    forall k | 0 <= k < |front| ensures front[k] == ms[k] {}
    SplitLast(ms);
  }

  lemma {:induction false} RegisterAllSettles(balances: E.Balances, ms: seq<Match>, own: U64, decimals: Decimals, skip: Skip)
    requires E.Solvent(balances) && Registrable(balances, ms, decimals)
    ensures Settled(RegisterAll(balances, ms, own, decimals, skip), balances, ms, own, decimals)
  {
    if ms != [] {
      var front, m := ms[..|ms| - 1], ms[|ms| - 1];
      FrontMatches(balances, ms, decimals);
      RegisterAllSettles(balances, front, own, decimals, skip);
      SettledStep(RegisterAll(balances, front, own, decimals, skip), balances, front, m, own, decimals, skip);
    }
  }

  /** The matches that are not skipped. */
  function Unskipped(ms: seq<Match>, skip: Skip): seq<Match> {
    if ms == [] then []
    else Unskipped(ms[..|ms| - 1], skip) + if skip(ms[|ms| - 1]) then [] else [ms[|ms| - 1]]
  }

  /** The next match fits beside the unskipped ones before it. */
  ghost predicate FitsBeside(balances: E.Balances, early: seq<Match>, m: Match, own: U64, decimals: Decimals) {
    forall token ::
      Total(early, Reserves(token, own, decimals)) + Reserves(token, own, decimals)(m) <= E.Projected(E.Of(balances, token))
  }

  /** Every match fits beside the unskipped ones before it. */
  ghost predicate FitsInTurn(balances: E.Balances, ms: seq<Match>, own: U64, decimals: Decimals, skip: Skip) {
    forall k :: 0 <= k < |ms| ==> FitsBeside(balances, Unskipped(ms[..k], skip), ms[k], own, decimals)
  }

  lemma FitsInTurnSnoc(balances: E.Balances, front: seq<Match>, m: Match, own: U64, decimals: Decimals, skip: Skip)
    ensures FitsInTurn(balances, front + [m], own, decimals, skip) <==>
      FitsInTurn(balances, front, own, decimals, skip) && FitsBeside(balances, Unskipped(front, skip), m, own, decimals)
  {
    var ms := front + [m];
    assert ms[|front|] == m && ms[..|front|] == front;
    forall k | 0 <= k < |front| ensures ms[k] == front[k] && ms[..k] == front[..k] {}
  }

  lemma {:induction false} HeldUnskipped(balances: E.Balances, ms: seq<Match>, own: U64, decimals: Decimals, skip: Skip)
    requires AllDivisible(decimals, ms)
    ensures var r := RegisterAll(balances, ms, own, decimals, skip); r.failed == [] ==> r.registered == Unskipped(ms, skip)
  {
    if ms != [] {
      var front := ms[..|ms| - 1];
      HeldUnskipped(balances, front, own, decimals, skip);
      assert Unskipped(front, skip) + [] == Unskipped(front, skip);
    }
  }

  lemma FitsBesideHeld(before: Registration, balances: E.Balances, front: seq<Match>, m: Match, own: U64, decimals: Decimals)
    requires Settled(before, balances, front, own, decimals)
    ensures Fits(before.balances, m, own, decimals) <==> FitsBeside(balances, before.registered, m, own, decimals)
  {
    forall token
      ensures Reserves(token, own, decimals)(m) <= E.Projected(E.Of(before.balances, token)) <==>
        Total(before.registered, Reserves(token, own, decimals)) + Reserves(token, own, decimals)(m) <= E.Projected(E.Of(balances, token))
    {
    }
  }

  /** Nothing in a list fails exactly when every match fits beside the unskipped ones before it. */
  lemma {:induction false} RegisterAllExact(balances: E.Balances, ms: seq<Match>, own: U64, decimals: Decimals, skip: Skip)
    requires E.Solvent(balances) && Registrable(balances, ms, decimals)
    ensures RegisterAll(balances, ms, own, decimals, skip).failed == [] <==> FitsInTurn(balances, ms, own, decimals, skip)
  {
    if ms != [] {
      var front, m := ms[..|ms| - 1], ms[|ms| - 1];
      FrontMatches(balances, ms, decimals);
      RegisterAllExact(balances, front, own, decimals, skip);
      RegisterAllSettles(balances, front, own, decimals, skip);
      HeldUnskipped(balances, front, own, decimals, skip);
      FitsInTurnSnoc(balances, front, m, own, decimals, skip);
      var before := RegisterAll(balances, front, own, decimals, skip);
      FitsBesideHeld(before, balances, front, m, own, decimals);
      TurnExact(before, m, own, decimals, skip);
    }
  }

  lemma {:induction false} UnskippedWithin(ms: seq<Match>, skip: Skip, weight: Match -> nat)
    ensures Total(Unskipped(ms, skip), weight) <= Total(ms, weight)
  {
    if ms != [] {
      var front, m := ms[..|ms| - 1], ms[|ms| - 1];
      UnskippedWithin(front, skip, weight);
      TotalSnoc(Unskipped(front, skip), m, weight);
      assert Unskipped(front, skip) + [] == Unskipped(front, skip);
    }
  }

  /** What fits all together fits in turn, whatever is skipped. */
  lemma AffordableFits(balances: E.Balances, ms: seq<Match>, own: U64, decimals: Decimals, skip: Skip)
    requires Affordable(balances, ms, own, decimals)
    ensures FitsInTurn(balances, ms, own, decimals, skip)
  {
    forall k, token | 0 <= k < |ms|
      ensures Total(Unskipped(ms[..k], skip), Reserves(token, own, decimals)) + Reserves(token, own, decimals)(ms[k])
           <= E.Projected(E.Of(balances, token))
    {
      UnskippedWithin(ms[..k], skip, Reserves(token, own, decimals));
      NextWithin(ms, k, Reserves(token, own, decimals));
      assert Total(ms, Reserves(token, own, decimals)) <= E.Projected(E.Of(balances, token));
    }
  }

  ghost predicate NoneSkipped(ms: seq<Match>, skip: Skip) {
    forall k :: 0 <= k < |ms| ==> !skip(ms[k])
  }

  lemma {:induction false} AllUnskipped(ms: seq<Match>, skip: Skip)
    requires NoneSkipped(ms, skip)
    ensures Unskipped(ms, skip) == ms
  {
    if ms != [] {
      AllUnskipped(ms[..|ms| - 1], skip);
      SplitLast(ms);
    }
  }

  /** Where nothing is skipped, nothing fails exactly when, per token, all reservations together fit. */
  lemma UnskippedExact(balances: E.Balances, ms: seq<Match>, own: U64, decimals: Decimals, skip: Skip)
    requires E.Solvent(balances) && Registrable(balances, ms, decimals) && NoneSkipped(ms, skip)
    ensures RegisterAll(balances, ms, own, decimals, skip).failed == [] <==> Affordable(balances, ms, own, decimals)
  {
    RegisterAllExact(balances, ms, own, decimals, skip);
    if Affordable(balances, ms, own, decimals) {
      AffordableFits(balances, ms, own, decimals, skip);
    } else if ms != [] {
      var front, m := ms[..|ms| - 1], ms[|ms| - 1];
      AllUnskipped(front, skip);
      SplitLast(ms);
      FitsInTurnSnoc(balances, front, m, own, decimals, skip);
      var token :| Total(ms, Reserves(token, own, decimals)) > E.Projected(E.Of(balances, token));
      assert !FitsBeside(balances, front, m, own, decimals);
    }
  }

  // ----- a given match ----------------------------------------------------------------

  lemma {:induction false} FailedWithin(balances: E.Balances, ms: seq<Match>, own: U64, decimals: Decimals, skip: Skip, m: Match)
    requires AllDivisible(decimals, ms) && m in RegisterAll(balances, ms, own, decimals, skip).failed
    ensures m in ms
  {
    var front := ms[..|ms| - 1];
    if m in RegisterAll(balances, front, own, decimals, skip).failed { FailedWithin(balances, front, own, decimals, skip, m); }
  }

  /** What fails is the last match, or failed before it. */
  lemma FailedSnoc(balances: E.Balances, front: seq<Match>, m: Match, own: U64, decimals: Decimals, skip: Skip, x: Match)
    requires AllDivisible(decimals, front) && SettleDivisor(decimals, m.symbol) > 0
    ensures AllDivisible(decimals, front + [m])
    ensures var before := RegisterAll(balances, front, own, decimals, skip);
      x in RegisterAll(balances, front + [m], own, decimals, skip).failed <==>
        x in before.failed || (x == m && Register(before.balances, m, own, decimals).result.Err?)
  {
    assert (front + [m])[..|front|] == front;
  }

  lemma {:induction false} FailsInTurn(
    balances: E.Balances, early: seq<Match>, x: Match, later: seq<Match>, own: U64, decimals: Decimals, skip: Skip)
    requires AllDivisible(decimals, early) && SettleDivisor(decimals, x.symbol) > 0 && AllDivisible(decimals, later)
    requires x !in early && x !in later
    ensures AllDivisible(decimals, early + [x] + later)
    ensures x in RegisterAll(balances, early + [x] + later, own, decimals, skip).failed <==>
      Register(RegisterAll(balances, early, own, decimals, skip).balances, x, own, decimals).result.Err?
  {
    if later == [] {
      FailedSnoc(balances, early, x, own, decimals, skip, x);
      if x in RegisterAll(balances, early, own, decimals, skip).failed { FailedWithin(balances, early, own, decimals, skip, x); }
      assert early + [x] + later == early + [x];
    } else {
      var front, last := later[..|later| - 1], later[|later| - 1];
      FailsInTurn(balances, early, x, front, own, decimals, skip);
      FailedSnoc(balances, early + [x] + front, last, own, decimals, skip, x);
      AppendSplitLast(early + [x], later);
    }
  }

  lemma DistinctElsewhere(ms: seq<Match>, k: nat)
    requires DistinctMatches(ms) && k < |ms|
    ensures ms[k] !in ms[..k] && ms[k] !in ms[k + 1..] && !Hashed(ms[..k], ms[k].matchHash)
    ensures ms == ms[..k] + [ms[k]] + ms[k + 1..]
  {
  }

  /** A match of the list fails exactly when it does not fit beside those still registered before it. */
  lemma FailsExactly(balances: E.Balances, ms: seq<Match>, own: U64, decimals: Decimals, skip: Skip, k: nat)
    requires E.Solvent(balances) && Registrable(balances, ms, decimals) && k < |ms|
    ensures AllDivisible(decimals, ms[..k])
    ensures ms[k] in RegisterAll(balances, ms, own, decimals, skip).failed <==>
      !FitsBeside(balances, RegisterAll(balances, ms[..k], own, decimals, skip).registered, ms[k], own, decimals)
  {
    var front := ms[..k];
    forall i | 0 <= i < k ensures front[i] == ms[i] {}
    DistinctElsewhere(ms, k);
    FailsInTurn(balances, front, ms[k], ms[k + 1..], own, decimals, skip);
    RegisterAllSettles(balances, front, own, decimals, skip);
    var before := RegisterAll(balances, front, own, decimals, skip);
    RegisterExact(before.balances, ms[k], own, decimals);
    FitsBesideHeld(before, balances, front, ms[k], own, decimals);
  }
}
