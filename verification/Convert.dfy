/** Strategy orders to canonical orders, admitted against the projected balances. */
module Convert {
  import opened Basics
  import opened Decimal
  import opened Sums

  datatype OrderSpec = OrderSpec(pair: string, side: string, price: string, quantity: string)

  datatype ConvertError =
    | InvalidSide(side: string)
    | InvalidPrice(why: ParseError)
    | InvalidQuantity(cause: ParseError)

  datatype Context = Context(
    activePairs: set<string>,
    minQuantities: map<string, U64>,
    tokenDecimals: map<Token, nat>,
    projectedBalances: map<Token, U64>,
    commitsPerBatch: nat,
    nftId: U64,
    batchId: nat)

  datatype Warning =
    | Truncated(given: nat, limit: nat)
    | ConversionFailed(index: nat, error: ConvertError)
    | PairNotActive(index: nat)
    | PriceIsZero(index: nat)
    | BelowMinimum(index: nat)
    | ExceedsProjected(index: nat, token: Token)

  // ----- pairs ----------------------------------------------------------------

  /** The first segment of "BASE/QUOTE". */
  function BaseToken(pair: string): Token {
    pair[..Find(pair, '/')]
  }

  /** The second segment, empty without a slash; a third one is ignored. */
  function QuoteToken(pair: string): Token {
    var slash := Find(pair, '/');
    if slash < |pair| then BaseToken(pair[slash + 1..]) else ""
  }

  /** How the swap phase splits the same symbol: everything behind the first slash is the quote. */
  function SettlementTokens(symbol: Symbol): (Token, Token) {
    var slash := Find(symbol, '/');
    if slash < |symbol| then (symbol[..slash], symbol[slash + 1..]) else (symbol, "UNKNOWN")
  }

  predicate OneSlash(pair: string) {
    var slash := Find(pair, '/');
    slash < |pair| && '/' !in pair[slash + 1..]
  }

  /** Admission and settlement name the same two tokens exactly for pairs with one slash. */
  lemma TokensAgree(pair: string)
    ensures (BaseToken(pair), QuoteToken(pair)) == SettlementTokens(pair) <==> OneSlash(pair)
  {
    var slash := Find(pair, '/');
    if slash < |pair| {
      var rest := pair[slash + 1..];
      var next := Find(rest, '/');
      if next < |rest| { assert rest[next] in rest; } else { assert rest[..next] == rest; }
    }
  }

  // ----- one order -------------------------------------------------------------

  const DEFAULT_DECIMALS := 5
  const PRICE_DECIMALS := 8

  function DecimalsOf(decimals: map<Token, nat>, token: Token): nat {
    if token in decimals then decimals[token] else DEFAULT_DECIMALS
  }

  function ConvertOrder(spec: OrderSpec, ctx: Context, nonce: Bytes): Result<Order, ConvertError> {
    if spec.side != "buy" && spec.side != "sell" then Err(InvalidSide(spec.side)) else
    match ParseFixed(spec.price, PRICE_DECIMALS)
    case Err(e) => Err(InvalidPrice(e))
    case Ok(price) =>
      match ParseFixed(spec.quantity, DecimalsOf(ctx.tokenDecimals, BaseToken(spec.pair)))
      case Err(e) => Err(InvalidQuantity(e))
      case Ok(quantity) =>
        Ok(Order(ctx.nftId, spec.pair, if spec.side == "buy" then BUY else SELL, price, quantity, ctx.batchId, nonce))
  }

  function DivisorFor(decimals: map<Token, nat>, pair: string): nat {
    Divisor(DecimalsOf(decimals, BaseToken(pair)), DecimalsOf(decimals, QuoteToken(pair)))
  }

  function OutToken(order: Order): Token {
    if order.side == BUY then QuoteToken(order.symbol) else BaseToken(order.symbol)
  }

  /** Only a buy divides. */
  predicate Priceable(order: Order, decimals: map<Token, nat>) {
    order.side == BUY ==> DivisorFor(decimals, order.symbol) > 0
  }

  /** The worst-case outflow of an order as a number, before it is cut to u64. */
  function ExactOutflow(order: Order, decimals: map<Token, nat>): nat
    requires Priceable(order, decimals)
  {
    if order.side == BUY then QuoteUnits(order.quantity, order.price, DivisorFor(decimals, order.symbol)) else order.quantity
  }

  function ComputeOutflow(order: Order, decimals: map<Token, nat>): (Token, U64)
    requires Priceable(order, decimals)
  {
    (OutToken(order), Wrap(ExactOutflow(order, decimals)))
  }

  // ----- a batch of orders --------------------------------------------------------

  function Lookup(m: map<Token, U64>, token: Token): U64 {
    if token in m then m[token] else 0
  }

  /** What is admitted after some specs, with the outflow counted so far. */
  datatype Ledger = Ledger(orders: seq<Order>, warnings: seq<Warning>, spent: map<Token, U64>)

  /** Why an order is turned away whatever the balances, if it is. */
  function Unfit(i: nat, order: Order, ctx: Context): Option<Warning> {
    if order.symbol !in ctx.activePairs then Some(PairNotActive(i))
    else if order.price == 0 then Some(PriceIsZero(i))
    else if order.symbol in ctx.minQuantities && order.quantity < ctx.minQuantities[order.symbol] then Some(BelowMinimum(i))
    else None
  }

  /** The balance check of an order with this outflow. */
  function Enter(ledger: Ledger, i: nat, order: Order, token: Token, outflow: U64, ctx: Context): Ledger {
    EnterAt(ledger, i, order, token, Wrap(Lookup(ledger.spent, token) + outflow), ctx)
  }

  function EnterAt(ledger: Ledger, i: nat, order: Order, token: Token, total: U64, ctx: Context): Ledger {
    if total > Lookup(ctx.projectedBalances, token)
    then ledger.(warnings := ledger.warnings + [ExceedsProjected(i, token)])
    else Ledger(ledger.orders + [order], ledger.warnings, ledger.spent[token := total])
  }

  /** The order of a spec that reaches the balance check, without its nonce. */
  function Candidate(spec: OrderSpec, ctx: Context): Option<Order> {
    match ConvertOrder(spec, ctx, [])
    case Err(_) => None
    case Ok(order) => if Unfit(0, order, ctx).Some? then None else Some(order)
  }

  /** The source divides by the scale of a pair only for buys that reach the balance check. */
  predicate Computable(spec: OrderSpec, ctx: Context) {
    var order := Candidate(spec, ctx);
    order.Some? ==> Priceable(order.value, ctx.tokenDecimals)
  }

  predicate AllComputable(specs: seq<OrderSpec>, ctx: Context) {
    forall k :: 0 <= k < |specs| ==> Computable(specs[k], ctx)
  }

  lemma CandidateOf(spec: OrderSpec, ctx: Context, i: nat, nonce: Bytes)
    ensures match ConvertOrder(spec, ctx, nonce)
      case Err(_) => Candidate(spec, ctx) == None
      case Ok(order) =>
        Candidate(spec, ctx) == if Unfit(i, order, ctx).Some? then None else Some(order.(nonce := []))
  {
  }

  function Admit(ledger: Ledger, i: nat, spec: OrderSpec, ctx: Context, nonce: Bytes): Ledger
    requires Computable(spec, ctx)
  {
    CandidateOf(spec, ctx, i, nonce);
    match ConvertOrder(spec, ctx, nonce)
    case Err(e) => ledger.(warnings := ledger.warnings + [ConversionFailed(i, e)])
    case Ok(order) => Decided(ledger, i, order, ctx)
  }

  function Decided(ledger: Ledger, i: nat, order: Order, ctx: Context): Ledger
    requires Unfit(i, order, ctx).None? ==> Priceable(order, ctx.tokenDecimals)
  {
    match Unfit(i, order, ctx)
    case Some(w) => ledger.(warnings := ledger.warnings + [w])
    case None =>
      var (token, outflow) := ComputeOutflow(order, ctx.tokenDecimals);
      Enter(ledger, i, order, token, outflow, ctx)
  }

  function Effective(specs: seq<OrderSpec>, ctx: Context): seq<OrderSpec> {
    if |specs| > ctx.commitsPerBatch then specs[..ctx.commitsPerBatch] else specs
  }

  function Opening(specs: seq<OrderSpec>, ctx: Context): Ledger {
    Ledger([], if |specs| > ctx.commitsPerBatch then [Truncated(|specs|, ctx.commitsPerBatch)] else [], map[])
  }

  function AdmitAll(opening: Ledger, specs: seq<OrderSpec>, ctx: Context, nonces: nat -> Bytes): Ledger
    requires AllComputable(specs, ctx)
  {
    if specs == [] then opening
    else Admit(AdmitAll(opening, specs[..|specs| - 1], ctx, nonces), |specs| - 1, specs[|specs| - 1], ctx, nonces(|specs| - 1))
  }

  function Validated(specs: seq<OrderSpec>, ctx: Context, nonces: nat -> Bytes): Ledger
    requires AllComputable(Effective(specs, ctx), ctx)
  {
    AdmitAll(Opening(specs, ctx), Effective(specs, ctx), ctx, nonces)
  }

  lemma AdmitNext(opening: Ledger, specs: seq<OrderSpec>, i: nat, ctx: Context, nonces: nat -> Bytes)
    requires AllComputable(specs, ctx) && i < |specs|
    ensures AdmitAll(opening, specs[..i + 1], ctx, nonces)
         == Admit(AdmitAll(opening, specs[..i], ctx, nonces), i, specs[i], ctx, nonces(i))
  {
    assert specs[..i + 1][..i] == specs[..i];
  }

  method ValidateOrders(specs: seq<OrderSpec>, ctx: Context, nonces: nat -> Bytes)
    returns (orders: seq<Order>, warnings: seq<Warning>)
    requires AllComputable(Effective(specs, ctx), ctx)
    ensures orders == Validated(specs, ctx, nonces).orders
    ensures warnings == Validated(specs, ctx, nonces).warnings
  {
    orders, warnings := [], [];
    var effective := specs;
    if |specs| > ctx.commitsPerBatch {
      warnings := [Truncated(|specs|, ctx.commitsPerBatch)];
      effective := specs[..ctx.commitsPerBatch];
    }
    var spent: map<Token, U64> := map[];
    for i := 0 to |effective|
      invariant Ledger(orders, warnings, spent) == AdmitAll(Opening(specs, ctx), effective[..i], ctx, nonces)
    {
      AdmitNext(Opening(specs, ctx), effective, i, ctx, nonces);
      orders, warnings, spent := Consider(orders, warnings, spent, i, effective[i], ctx, nonces(i));
    }
    assert effective[..|effective|] == effective;
  }

  /** One spec: conversion, the checks of the order, and the running total of its token. */
  method Consider(
    orders: seq<Order>, warnings: seq<Warning>, spent: map<Token, U64>, i: nat, spec: OrderSpec, ctx: Context, nonce: Bytes)
    returns (orders': seq<Order>, warnings': seq<Warning>, spent': map<Token, U64>)
    requires Computable(spec, ctx)
    ensures Ledger(orders', warnings', spent') == Admit(Ledger(orders, warnings, spent), i, spec, ctx, nonce)
  {
    orders', warnings', spent' := orders, warnings, spent;
    CandidateOf(spec, ctx, i, nonce);
    var converted := ConvertOrder(spec, ctx, nonce);
    if converted.Err? {
      warnings' := warnings + [ConversionFailed(i, converted.error)];
      return;
    }
    var order := converted.value;
    orders', warnings', spent' := Decide(orders, warnings, spent, i, order, ctx);
  }

  /** The checks of one converted order. */
  method Decide(orders: seq<Order>, warnings: seq<Warning>, spent: map<Token, U64>, i: nat, order: Order, ctx: Context)
    returns (orders': seq<Order>, warnings': seq<Warning>, spent': map<Token, U64>)
    requires Unfit(i, order, ctx).None? ==> Priceable(order, ctx.tokenDecimals)
    ensures Ledger(orders', warnings', spent') == Decided(Ledger(orders, warnings, spent), i, order, ctx)
  {
    orders', warnings', spent' := orders, warnings, spent;
    if order.symbol !in ctx.activePairs {
      warnings' := warnings + [PairNotActive(i)];
      return;
    }
    if order.price == 0 {
      warnings' := warnings + [PriceIsZero(i)];
      return;
    }
    if order.symbol in ctx.minQuantities && order.quantity < ctx.minQuantities[order.symbol] {
      warnings' := warnings + [BelowMinimum(i)];
      return;
    }
    var (token, outflow) := ComputeOutflow(order, ctx.tokenDecimals);
    orders', warnings', spent' := CheckBalance(orders, warnings, spent, i, order, token, outflow, ctx);
  }

  method CheckBalance(
    orders: seq<Order>, warnings: seq<Warning>, spent: map<Token, U64>,
    i: nat, order: Order, token: Token, outflow: U64, ctx: Context)
    returns (orders': seq<Order>, warnings': seq<Warning>, spent': map<Token, U64>)
    ensures Ledger(orders', warnings', spent') == Enter(Ledger(orders, warnings, spent), i, order, token, outflow, ctx)
  {
    var total := Wrap(Lookup(spent, token) + outflow);
    if total > Lookup(ctx.projectedBalances, token) {
      return orders, warnings + [ExceedsProjected(i, token)], spent;
    }
    return orders + [order], warnings, spent[token := total];
  }

  // ----- what admission guarantees --------------------------------------------------

  /** An order that was converted from some spec and passed every per-order check. */
  ghost predicate Admissible(order: Order, ctx: Context) {
    && order.nftId == ctx.nftId && order.batchId == ctx.batchId
    && (order.side == BUY || order.side == SELL)
    && Priceable(order, ctx.tokenDecimals)
    && order.symbol in ctx.activePairs
    && order.price > 0
    && (order.symbol in ctx.minQuantities ==> ctx.minQuantities[order.symbol] <= order.quantity)
  }

  ghost predicate AllAdmissible(orders: seq<Order>, ctx: Context) {
    forall k :: 0 <= k < |orders| ==> Admissible(orders[k], ctx)
  }

  /** The true outflow of one order on one token. */
  function OutflowOf(order: Order, token: Token, decimals: map<Token, nat>): nat {
    if Priceable(order, decimals) && OutToken(order) == token then ExactOutflow(order, decimals) else 0
  }

  function OutflowOn(token: Token, decimals: map<Token, nat>): Order -> nat {
    (order: Order) => OutflowOf(order, token, decimals)
  }

  ghost function TotalOutflow(orders: seq<Order>, token: Token, ctx: Context): nat {
    Total(orders, OutflowOn(token, ctx.tokenDecimals))
  }

  lemma WrapAdd(a: nat, b: nat)
    ensures Wrap(Wrap(a) + Wrap(b)) == Wrap(a + b)
  {
  }

  /** The running total is the true outflow modulo 2^64, and never exceeds the projected balance. */
  ghost predicate Accounted(ledger: Ledger, ctx: Context) {
    && AllAdmissible(ledger.orders, ctx)
    && forall token :: AccountedToken(ledger, token, ctx)
  }

  ghost predicate AccountedToken(ledger: Ledger, token: Token, ctx: Context) {
    Balanced(ledger, token, ctx, OutflowOn(token, ctx.tokenDecimals))
  }

  ghost predicate Balanced(ledger: Ledger, token: Token, ctx: Context, weight: Order -> nat) {
    && Lookup(ledger.spent, token) == Wrap(Total(ledger.orders, weight))
    && Lookup(ledger.spent, token) <= Lookup(ctx.projectedBalances, token)
  }

  lemma EnterBalanced(
    ledger: Ledger, i: nat, order: Order, token: Token, outflow: nat, ctx: Context, t: Token, weight: Order -> nat)
    requires Balanced(ledger, t, ctx, weight) && weight(order) == if t == token then outflow else 0
    ensures Balanced(Enter(ledger, i, order, token, Wrap(outflow), ctx), t, ctx, weight)
  {
    TotalSnoc(ledger.orders, order, weight);
    WrapAdd(Total(ledger.orders, weight), outflow);
  }

  lemma EnterAccounted(ledger: Ledger, i: nat, order: Order, ctx: Context)
    requires Accounted(ledger, ctx) && Admissible(order, ctx)
    ensures Accounted(Enter(ledger, i, order, OutToken(order), Wrap(ExactOutflow(order, ctx.tokenDecimals)), ctx), ctx)
  {
    var token, outflow := OutToken(order), ExactOutflow(order, ctx.tokenDecimals);
    var next := Enter(ledger, i, order, token, Wrap(outflow), ctx);
    forall t ensures AccountedToken(next, t, ctx) {
      assert AccountedToken(ledger, t, ctx);
      EnterBalanced(ledger, i, order, token, outflow, ctx, t, OutflowOn(t, ctx.tokenDecimals));
    }
  }

  lemma AdmitAccounted(ledger: Ledger, i: nat, spec: OrderSpec, ctx: Context, nonce: Bytes)
    requires Computable(spec, ctx) && Accounted(ledger, ctx)
    ensures Accounted(Admit(ledger, i, spec, ctx, nonce), ctx)
  {
    CandidateOf(spec, ctx, i, nonce);
    var converted := ConvertOrder(spec, ctx, nonce);
    if converted.Ok? && Unfit(i, converted.value, ctx).None? {
      EnterAccounted(ledger, i, converted.value, ctx);
    } else {
      var next := Admit(ledger, i, spec, ctx, nonce);
      forall t ensures AccountedToken(next, t, ctx) {
        assert AccountedToken(ledger, t, ctx);
      }
    }
  }

  lemma {:induction false} AdmitAllAccounted(opening: Ledger, specs: seq<OrderSpec>, ctx: Context, nonces: nat -> Bytes)
    requires AllComputable(specs, ctx) && Accounted(opening, ctx)
    ensures Accounted(AdmitAll(opening, specs, ctx, nonces), ctx)
  {
    if specs != [] {
      var front := specs[..|specs| - 1];
      AdmitAllAccounted(opening, front, ctx, nonces);
      AdmitAccounted(AdmitAll(opening, front, ctx, nonces), |front|, specs[|front|], ctx, nonces(|front|));
    }
  }

  lemma OpeningAccounted(specs: seq<OrderSpec>, ctx: Context)
    ensures Accounted(Opening(specs, ctx), ctx)
  {
    forall t ensures AccountedToken(Opening(specs, ctx), t, ctx) {
    }
  }

  lemma ValidatedAccounted(specs: seq<OrderSpec>, ctx: Context, nonces: nat -> Bytes)
    requires AllComputable(Effective(specs, ctx), ctx)
    ensures Accounted(Validated(specs, ctx, nonces), ctx)
  {
    OpeningAccounted(specs, ctx);
    AdmitAllAccounted(Opening(specs, ctx), Effective(specs, ctx), ctx, nonces);
  }

  /** The projected balances pay for all admitted orders together. */
  ghost predicate Covered(orders: seq<Order>, ctx: Context) {
    forall token :: TotalOutflow(orders, token, ctx) <= Lookup(ctx.projectedBalances, token)
  }

  // ----- what the admitted orders are -------------------------------------------------

  /** The part of the pair before its first slash, and the part from there to the next. */
  ghost predicate NamesBase(pair: string, base: Token) {
    base <= pair && '/' !in base && (|base| < |pair| ==> pair[|base|] == '/')
  }

  ghost predicate NamesQuote(pair: string, quote: Token) {
    if '/' !in pair then quote == ""
    else
      exists i: nat :: i < |pair| && pair[i] == '/' && '/' !in pair[..i] && NamesBase(pair[i + 1..], quote)
  }

  lemma TokensNamed(pair: string)
    ensures NamesBase(pair, BaseToken(pair)) && NamesQuote(pair, QuoteToken(pair))
    ensures forall base :: NamesBase(pair, base) ==> base == BaseToken(pair)
  {
    var slash := Find(pair, '/');
    BaseNamed(pair);
    if slash < |pair| {
      BaseNamed(pair[slash + 1..]);
      assert pair[slash] in pair;
    } else {
      assert pair[..slash] == pair;
    }
    forall base | NamesBase(pair, base) ensures base == BaseToken(pair) { OneBase(pair, base); }
  }

  lemma BaseNamed(pair: string)
    ensures NamesBase(pair, BaseToken(pair))
  {
  }

  lemma OneBase(pair: string, base: Token)
    requires NamesBase(pair, base)
    ensures base == BaseToken(pair)
  {
    var slash := Find(pair, '/');
    assert forall k :: 0 <= k < slash ==> pair[k] in pair[..slash];
    assert forall k :: 0 <= k < |base| ==> pair[k] == base[k] && base[k] in base;
    assert base == pair[..|base|];
  }

  /** The order says what the spec says: pair, side, the price at 8 decimals, and the quantity at the decimals of the token
      before the first slash, 5 if it is not listed. */
  ghost predicate Reads(order: Order, spec: OrderSpec, ctx: Context, nonce: Bytes) {
    && order.symbol == spec.pair
    && (order.side == 1 <==> spec.side == "buy") && (order.side == 0 <==> spec.side == "sell")
    && ParseFixed(spec.price, 8) == Ok(order.price)
    && (forall base :: NamesBase(spec.pair, base) ==>
          ParseFixed(spec.quantity, if base in ctx.tokenDecimals then ctx.tokenDecimals[base] else 5) == Ok(order.quantity))
    && order.nftId == ctx.nftId && order.batchId == ctx.batchId && order.nonce == nonce
  }

  /** The first text of a spec that cannot be read: the side, then the price, then the quantity. */
  ghost predicate Unreadable(e: ConvertError, spec: OrderSpec, ctx: Context) {
    var sided := spec.side == "buy" || spec.side == "sell";
    match e
    case InvalidSide(side) => !sided && side == spec.side
    case InvalidPrice(why) => sided && ParseFixed(spec.price, 8) == Err(why)
    case InvalidQuantity(cause) =>
      && sided && ParseFixed(spec.price, 8).Ok?
      && forall base :: NamesBase(spec.pair, base) ==>
           ParseFixed(spec.quantity, if base in ctx.tokenDecimals then ctx.tokenDecimals[base] else 5) == Err(cause)
  }

  /** A spec is converted to the order that says the same, or refused for its first text that cannot be read. */
  lemma ConvertMeaning(spec: OrderSpec, ctx: Context, nonce: Bytes)
    ensures match ConvertOrder(spec, ctx, nonce)
      case Ok(order) => Reads(order, spec, ctx, nonce)
      case Err(e) => Unreadable(e, spec, ctx)
  {
    TokensNamed(spec.pair);
  }

  /** Why a spec was turned away, in terms of its own texts. */
  ghost predicate WarningTrue(w: Warning, specs: seq<OrderSpec>, ctx: Context) {
    match w
    case Truncated(given, limit) => given > limit == ctx.commitsPerBatch
    case ConversionFailed(i, e) => i < |specs| && Unreadable(e, specs[i], ctx)
    case PairNotActive(i) => i < |specs| && specs[i].pair !in ctx.activePairs
    case PriceIsZero(i) => i < |specs| && specs[i].pair in ctx.activePairs && ParseFixed(specs[i].price, 8) == Ok(0)
    case BelowMinimum(i) =>
      && i < |specs| && specs[i].pair in ctx.activePairs && specs[i].pair in ctx.minQuantities
      && exists order :: Reads(order, specs[i], ctx, []) && 0 < order.price && order.quantity < ctx.minQuantities[specs[i].pair]
    case ExceedsProjected(i, token) =>
      && i < |specs| && specs[i].pair in ctx.activePairs
      && if specs[i].side == "buy" then NamesQuote(specs[i].pair, token) else NamesBase(specs[i].pair, token)
  }

  function WarnedIndex(w: Warning): Option<nat> {
    match w
    case Truncated(_, _) => None
    case ConversionFailed(i, _) => Some(i)
    case PairNotActive(i) => Some(i)
    case PriceIsZero(i) => Some(i)
    case BelowMinimum(i) => Some(i)
    case ExceedsProjected(i, _) => Some(i)
  }

  ghost predicate Warned(warnings: seq<Warning>, i: nat) {
    exists k :: 0 <= k < |warnings| && WarnedIndex(warnings[k]) == Some(i)
  }

  /** The admitted orders are those of the picked specs, in order; every other spec has its warning, and every warning is true. */
  ghost predicate Traced(ledger: Ledger, n: nat, specs: seq<OrderSpec>, ctx: Context, nonces: nat -> Bytes, picks: seq<nat>) {
    && n <= |specs| && |picks| == |ledger.orders|
    && (forall k :: 0 <= k < |picks| ==> picks[k] < n && Reads(ledger.orders[k], specs[picks[k]], ctx, nonces(picks[k])))
    && (forall i, j :: 0 <= i < j < |picks| ==> picks[i] < picks[j])
    && (forall k :: 0 <= k < |ledger.warnings| ==> WarningTrue(ledger.warnings[k], specs, ctx))
    && (forall i: nat :: Warned(ledger.warnings, i) ==> i < n)
    && (forall i: nat :: i < n ==> (i in picks <==> !Warned(ledger.warnings, i)))
  }

  lemma WarnedSnoc(warnings: seq<Warning>, w: Warning, i: nat)
    ensures Warned(warnings + [w], i) <==> Warned(warnings, i) || WarnedIndex(w) == Some(i)
  {
    if Warned(warnings, i) {
      var k :| 0 <= k < |warnings| && WarnedIndex(warnings[k]) == Some(i);
      assert (warnings + [w])[k] == warnings[k];
    }
    assert (warnings + [w])[|warnings|] == w;
  }

  /** One more order from one more spec. */
  ghost predicate PicksUp(ledger: Ledger, next: Ledger, spec: OrderSpec, ctx: Context, nonce: Bytes) {
    exists order :: next.orders == ledger.orders + [order] && next.warnings == ledger.warnings && Reads(order, spec, ctx, nonce)
  }

  /** One more warning, about this spec. */
  ghost predicate WarnsOf(ledger: Ledger, next: Ledger, i: nat, specs: seq<OrderSpec>, ctx: Context) {
    exists w :: next.warnings == ledger.warnings + [w] && next.orders == ledger.orders
      && WarnedIndex(w) == Some(i) && WarningTrue(w, specs, ctx)
  }

  lemma WarnedOf(ledger: Ledger, i: nat, w: Warning, specs: seq<OrderSpec>, ctx: Context)
    requires WarnedIndex(w) == Some(i) && WarningTrue(w, specs, ctx)
    ensures WarnsOf(ledger, ledger.(warnings := ledger.warnings + [w]), i, specs, ctx)
  {
  }

  lemma EnteredCases(ledger: Ledger, i: nat, specs: seq<OrderSpec>, order: Order, outflow: U64, ctx: Context, nonce: Bytes)
    requires i < |specs| && Reads(order, specs[i], ctx, nonce) && specs[i].pair in ctx.activePairs
    ensures var next := Enter(ledger, i, order, OutToken(order), outflow, ctx);
      PicksUp(ledger, next, specs[i], ctx, nonce) || WarnsOf(ledger, next, i, specs, ctx)
  {
    TokensNamed(specs[i].pair);
    var next := Enter(ledger, i, order, OutToken(order), outflow, ctx);
    if |next.orders| > |ledger.orders| {
      assert next.orders == ledger.orders + [order];
    } else {
      WarnedOf(ledger, i, ExceedsProjected(i, OutToken(order)), specs, ctx);
    }
  }

  lemma UnfitTrue(i: nat, specs: seq<OrderSpec>, order: Order, ctx: Context, nonce: Bytes)
    requires i < |specs| && Reads(order, specs[i], ctx, nonce)
    ensures match Unfit(i, order, ctx)
      case Some(w) => WarnedIndex(w) == Some(i) && WarningTrue(w, specs, ctx)
      case None => specs[i].pair in ctx.activePairs
  {
    assert Reads(order.(nonce := []), specs[i], ctx, []);
  }

  /** One spec is either picked or warned about. */
  lemma AdmitCases(ledger: Ledger, i: nat, specs: seq<OrderSpec>, ctx: Context, nonce: Bytes)
    requires i < |specs| && Computable(specs[i], ctx)
    ensures var next := Admit(ledger, i, specs[i], ctx, nonce);
      PicksUp(ledger, next, specs[i], ctx, nonce) || WarnsOf(ledger, next, i, specs, ctx)
  {
    CandidateOf(specs[i], ctx, i, nonce);
    ConvertMeaning(specs[i], ctx, nonce);
    match ConvertOrder(specs[i], ctx, nonce)
    case Err(e) =>
      WarnedOf(ledger, i, ConversionFailed(i, e), specs, ctx);
    case Ok(order) =>
      UnfitTrue(i, specs, order, ctx, nonce);
      match Unfit(i, order, ctx)
      case Some(w) => WarnedOf(ledger, i, w, specs, ctx);
      case None => EnteredCases(ledger, i, specs, order, ComputeOutflow(order, ctx.tokenDecimals).1, ctx, nonce);
  }

  lemma TracedPick(
    ledger: Ledger, next: Ledger, n: nat, specs: seq<OrderSpec>, ctx: Context, nonces: nat -> Bytes, picks: seq<nat>)
    requires n < |specs| && Traced(ledger, n, specs, ctx, nonces, picks) && PicksUp(ledger, next, specs[n], ctx, nonces(n))
    ensures Traced(next, n + 1, specs, ctx, nonces, picks + [n])
  {
    assert !Warned(ledger.warnings, n);
  }

  lemma TracedWarning(
    ledger: Ledger, next: Ledger, n: nat, specs: seq<OrderSpec>, ctx: Context, nonces: nat -> Bytes, picks: seq<nat>)
    requires n < |specs| && Traced(ledger, n, specs, ctx, nonces, picks) && WarnsOf(ledger, next, n, specs, ctx)
    ensures Traced(next, n + 1, specs, ctx, nonces, picks)
  {
    var w :| next.warnings == ledger.warnings + [w] && next.orders == ledger.orders
      && WarnedIndex(w) == Some(n) && WarningTrue(w, specs, ctx);
    forall i: nat ensures Warned(next.warnings, i) <==> Warned(ledger.warnings, i) || i == n { WarnedSnoc(ledger.warnings, w, i); }
  }

  lemma {:induction false} AdmittedTraced(opening: Ledger, specs: seq<OrderSpec>, n: nat, ctx: Context, nonces: nat -> Bytes)
    returns (picks: seq<nat>)
    requires AllComputable(specs, ctx) && n <= |specs| && opening.orders == []
    requires forall k :: 0 <= k < |opening.warnings| ==>
      WarnedIndex(opening.warnings[k]) == None && WarningTrue(opening.warnings[k], specs, ctx)
    ensures Traced(AdmitAll(opening, specs[..n], ctx, nonces), n, specs, ctx, nonces, picks)
  {
    if n == 0 {
      picks := [];
    } else {
      var before := AdmittedTraced(opening, specs, n - 1, ctx, nonces);
      var ledger := AdmitAll(opening, specs[..n - 1], ctx, nonces);
      AdmitNext(opening, specs, n - 1, ctx, nonces);
      AdmitCases(ledger, n - 1, specs, ctx, nonces(n - 1));
      var next := Admit(ledger, n - 1, specs[n - 1], ctx, nonces(n - 1));
      if PicksUp(ledger, next, specs[n - 1], ctx, nonces(n - 1)) {
        picks := before + [n - 1];
        TracedPick(ledger, next, n - 1, specs, ctx, nonces, before);
      } else {
        picks := before;
        TracedWarning(ledger, next, n - 1, specs, ctx, nonces, before);
      }
    }
  }

  /** Every admitted order says what its spec says, in the order of the specs, and every spec without an order has a true
      warning. */
  lemma AdmittedFromSpecs(specs: seq<OrderSpec>, ctx: Context, nonces: nat -> Bytes) returns (picks: seq<nat>)
    requires AllComputable(Effective(specs, ctx), ctx)
    ensures Traced(Validated(specs, ctx, nonces), |Effective(specs, ctx)|, Effective(specs, ctx), ctx, nonces, picks)
    ensures Effective(specs, ctx) == specs[..|Effective(specs, ctx)|]
    ensures |Effective(specs, ctx)| == if |specs| > ctx.commitsPerBatch then ctx.commitsPerBatch else |specs|
    ensures |specs| > ctx.commitsPerBatch ==> Truncated(|specs|, ctx.commitsPerBatch) in Opening(specs, ctx).warnings
  {
    var effective := Effective(specs, ctx);
    picks := AdmittedTraced(Opening(specs, ctx), effective, |effective|, ctx, nonces);
    assert effective[..|effective|] == effective;
  }

  /** What an order is charged for: a buy for its quote units, a sale for its quantity of the base token. */
  lemma OutflowMeaning(order: Order, decimals: map<Token, nat>)
    requires Priceable(order, decimals)
    ensures var (token, u) := ComputeOutflow(order, decimals);
      if order.side == 1 then
        && NamesQuote(order.symbol, token)
        && forall base :: NamesBase(order.symbol, base) ==>
             var b, q := if base in decimals then decimals[base] else 5, if token in decimals then decimals[token] else 5;
             q <= b + 8 <= q + 38 ==> CutQuoteUnits(u, order.quantity, order.price, b, q)
      else NamesBase(order.symbol, token) && u == order.quantity
  {
    TokensNamed(order.symbol);
    if order.side == 1 {
      var b, q := DecimalsOf(decimals, BaseToken(order.symbol)), DecimalsOf(decimals, QuoteToken(order.symbol));
      if q <= b + 8 <= q + 38 {
        ScaleMeaning(order.quantity, order.price, b, q);
        assert InQuoteUnits(ExactOutflow(order, decimals), order.quantity, order.price, b, q);
      }
    }
  }

  // ----- the ledger with exact sums ---------------------------------------------------

  /** What a spec asks for at the balance check: an exact amount of one token. */
  datatype Ask = Ask(token: Token, amount: nat)

  function AskOf(spec: OrderSpec, ctx: Context): Option<Ask>
    requires Computable(spec, ctx)
  {
    match Candidate(spec, ctx)
    case None => None
    case Some(order) => Some(Ask(OutToken(order), ExactOutflow(order, ctx.tokenDecimals)))
  }

  function SpentOn(spent: map<Token, nat>, token: Token): nat {
    if token in spent then spent[token] else 0
  }

  /** What the asks amount to with the next one. */
  function Raised(spent: map<Token, nat>, ask: Ask): nat {
    SpentOn(spent, ask.token) + ask.amount
  }

  /** The outflow admitted per token when nothing wraps. */
  function ExactLedger(specs: seq<OrderSpec>, ctx: Context): map<Token, nat>
    requires AllComputable(specs, ctx)
  {
    if specs == [] then map[]
    else Charge(ExactLedger(specs[..|specs| - 1], ctx), specs[|specs| - 1], ctx)
  }

  function Charge(spent: map<Token, nat>, spec: OrderSpec, ctx: Context): map<Token, nat>
    requires Computable(spec, ctx)
  {
    match AskOf(spec, ctx)
    case None => spent
    case Some(ask) => Charged(spent, ask, Lookup(ctx.projectedBalances, ask.token))
  }

  /** An ask within the limit is charged. */
  function Charged(spent: map<Token, nat>, ask: Ask, limit: nat): map<Token, nat> {
    if Raised(spent, ask) > limit then spent else spent[ask.token := Raised(spent, ask)]
  }

  /** A total passes 2^64 and comes back under the limit. */
  predicate WrapsUnder(total: nat, limit: nat) {
    total >= TWO64 && Wrap(total) <= limit
  }

  /** The running total wraps under the balance, so that the check lets it through. */
  predicate Slips(spent: map<Token, nat>, ask: Ask, ctx: Context) {
    WrapsUnder(Raised(spent, ask), Lookup(ctx.projectedBalances, ask.token))
  }

  predicate SlipsAt(specs: seq<OrderSpec>, i: nat, ctx: Context)
    requires AllComputable(specs, ctx) && i < |specs|
  {
    var ask := AskOf(specs[i], ctx);
    ask.Some? && Slips(ExactLedger(specs[..i], ctx), ask.value, ctx)
  }

  predicate NeverSlips(specs: seq<OrderSpec>, ctx: Context)
    requires AllComputable(specs, ctx)
  {
    forall i :: 0 <= i < |specs| ==> !SlipsAt(specs, i, ctx)
  }

  /** The ledger of the source agrees with the exact one. */
  ghost predicate Exact(ledger: Ledger, spent: map<Token, nat>, ctx: Context) {
    forall token :: ExactToken(ledger, spent, token, OutflowOn(token, ctx.tokenDecimals))
  }

  ghost predicate ExactToken(ledger: Ledger, spent: map<Token, nat>, token: Token, weight: Order -> nat) {
    Lookup(ledger.spent, token) == SpentOn(spent, token) == Total(ledger.orders, weight)
  }

  /** Checking `total` against the limit is checking `raised`, and what passes is the same. */
  predicate Agrees(total: nat, raised: nat, limit: nat) {
    (total > limit <==> raised > limit) && (raised <= limit ==> total == raised)
  }

  /** The check on the wrapped total is the check on the exact one, unless the total wraps under the limit. */
  lemma WrappedCheck(spent: U64, amount: nat, limit: U64)
    ensures WrapsUnder(spent + amount, limit) ==> Wrap(spent + Wrap(amount)) <= limit
    ensures !WrapsUnder(spent + amount, limit) ==> Agrees(Wrap(spent + Wrap(amount)), spent + amount, limit)
  {
    WrapAdd(spent, amount);
  }

  lemma ExactEnter(
    ledger: Ledger, i: nat, order: Order, spent: map<Token, nat>, ask: Ask, ctx: Context, t: Token, weight: Order -> nat)
    requires Lookup(ledger.spent, ask.token) == SpentOn(spent, ask.token) && ExactToken(ledger, spent, t, weight)
    requires weight(order) == if t == ask.token then ask.amount else 0
    requires !Slips(spent, ask, ctx)
    ensures ExactToken(Enter(ledger, i, order, ask.token, Wrap(ask.amount), ctx),
                       Charged(spent, ask, Lookup(ctx.projectedBalances, ask.token)), t, weight)
  {
    var total := EnterTotal(ledger, i, order, spent, ask, ctx);
    EnterExactly(ledger, i, order, spent, ask, ctx, t, weight, total);
  }

  /** The total the balance check is made with. */
  lemma EnterTotal(ledger: Ledger, i: nat, order: Order, spent: map<Token, nat>, ask: Ask, ctx: Context) returns (total: U64)
    requires Lookup(ledger.spent, ask.token) == SpentOn(spent, ask.token) && !Slips(spent, ask, ctx)
    ensures Enter(ledger, i, order, ask.token, Wrap(ask.amount), ctx) == EnterAt(ledger, i, order, ask.token, total, ctx)
    ensures Agrees(total, Raised(spent, ask), Lookup(ctx.projectedBalances, ask.token))
  {
    total := Wrap(Lookup(ledger.spent, ask.token) + Wrap(ask.amount));
    WrappedCheck(Lookup(ledger.spent, ask.token), ask.amount, Lookup(ctx.projectedBalances, ask.token));
  }

  lemma EnterExactly(
    ledger: Ledger, i: nat, order: Order, spent: map<Token, nat>, ask: Ask, ctx: Context, t: Token, weight: Order -> nat,
    total: U64)
    requires ExactToken(ledger, spent, t, weight)
    requires weight(order) == if t == ask.token then ask.amount else 0
    requires Agrees(total, Raised(spent, ask), Lookup(ctx.projectedBalances, ask.token))
    ensures ExactToken(EnterAt(ledger, i, order, ask.token, total, ctx),
                       Charged(spent, ask, Lookup(ctx.projectedBalances, ask.token)), t, weight)
  {
    TotalSnoc(ledger.orders, order, weight);
  }

  /** The order of a spec weighs what the spec asks. */
  lemma AskWeighs(order: Order, ctx: Context, token: Token)
    requires Priceable(order, ctx.tokenDecimals)
    ensures OutflowOn(token, ctx.tokenDecimals)(order) == if token == OutToken(order) then ExactOutflow(order, ctx.tokenDecimals) else 0
  {
  }

  /** What the order of a spec asks does not depend on its nonce. */
  lemma AskOfOrder(spec: OrderSpec, ctx: Context, i: nat, nonce: Bytes)
    requires Computable(spec, ctx)
    ensures match ConvertOrder(spec, ctx, nonce)
      case Err(_) => AskOf(spec, ctx) == None
      case Ok(order) =>
        if Unfit(i, order, ctx).Some? then AskOf(spec, ctx) == None
        else Priceable(order, ctx.tokenDecimals) && AskOf(spec, ctx) == Some(Ask(OutToken(order), ExactOutflow(order, ctx.tokenDecimals)))
  {
    CandidateOf(spec, ctx, i, nonce);
  }

  lemma ExactAdmit(ledger: Ledger, i: nat, spec: OrderSpec, spent: map<Token, nat>, ctx: Context, nonce: Bytes, t: Token)
    requires Computable(spec, ctx) && Exact(ledger, spent, ctx)
    requires var ask := AskOf(spec, ctx); ask.Some? ==> !Slips(spent, ask.value, ctx)
    ensures ExactToken(Admit(ledger, i, spec, ctx, nonce), Charge(spent, spec, ctx), t, OutflowOn(t, ctx.tokenDecimals))
  {
    AskOfOrder(spec, ctx, i, nonce);
    assert ExactToken(ledger, spent, t, OutflowOn(t, ctx.tokenDecimals));
    var ask := AskOf(spec, ctx);
    if ask.Some? {
      var order := ConvertOrder(spec, ctx, nonce).value;
      assert ExactToken(ledger, spent, ask.value.token, OutflowOn(ask.value.token, ctx.tokenDecimals));
      AskWeighs(order, ctx, t);
      ExactEnter(ledger, i, order, spent, ask.value, ctx, t, OutflowOn(t, ctx.tokenDecimals));
    }
  }

  lemma ExactStep(ledger: Ledger, i: nat, spec: OrderSpec, spent: map<Token, nat>, ctx: Context, nonce: Bytes)
    requires Computable(spec, ctx) && Exact(ledger, spent, ctx)
    requires var ask := AskOf(spec, ctx); ask.Some? ==> !Slips(spent, ask.value, ctx)
    ensures Exact(Admit(ledger, i, spec, ctx, nonce), Charge(spent, spec, ctx), ctx)
  {
    forall t
      ensures ExactToken(Admit(ledger, i, spec, ctx, nonce), Charge(spent, spec, ctx), t, OutflowOn(t, ctx.tokenDecimals))
    {
      ExactAdmit(ledger, i, spec, spent, ctx, nonce, t);
    }
  }

  /** While nothing slips, the source's ledger is the exact one. */
  lemma {:induction false} LedgerExact(opening: Ledger, specs: seq<OrderSpec>, ctx: Context, nonces: nat -> Bytes)
    requires AllComputable(specs, ctx) && opening.orders == [] && opening.spent == map[]
    requires NeverSlips(specs, ctx)
    ensures Exact(AdmitAll(opening, specs, ctx, nonces), ExactLedger(specs, ctx), ctx)
  {
    if specs == [] {
      OpeningExact(opening, ctx);
    } else {
      var front, n := specs[..|specs| - 1], |specs| - 1;
      NoSlipLast(specs, ctx);
      LedgerExact(opening, front, ctx, nonces);
      ExactStep(AdmitAll(opening, front, ctx, nonces), n, specs[n], ExactLedger(front, ctx), ctx, nonces(n));
    }
  }

  lemma OpeningExact(opening: Ledger, ctx: Context)
    requires opening.orders == [] && opening.spent == map[]
    ensures Exact(opening, map[], ctx)
  {
    forall t ensures ExactToken(opening, map[], t, OutflowOn(t, ctx.tokenDecimals)) {
    }
  }

  lemma NoSlipLast(specs: seq<OrderSpec>, ctx: Context)
    requires AllComputable(specs, ctx) && NeverSlips(specs, ctx) && specs != []
    ensures AllComputable(specs[..|specs| - 1], ctx)
    ensures NeverSlips(specs[..|specs| - 1], ctx)
    ensures var ask := AskOf(specs[|specs| - 1], ctx);
      ask.Some? ==> !Slips(ExactLedger(specs[..|specs| - 1], ctx), ask.value, ctx)
  {
    FrontNeverSlips(specs, ctx, |specs| - 1);
    assert !SlipsAt(specs, |specs| - 1, ctx);
  }

  lemma FrontNeverSlips(specs: seq<OrderSpec>, ctx: Context, n: nat)
    requires AllComputable(specs, ctx) && n <= |specs| && forall i :: 0 <= i < n ==> !SlipsAt(specs, i, ctx)
    ensures AllComputable(specs[..n], ctx)
    ensures NeverSlips(specs[..n], ctx)
  {
    forall i | 0 <= i < n ensures !SlipsAt(specs[..n], i, ctx) {
      assert specs[..n][..i] == specs[..i] && !SlipsAt(specs, i, ctx);
    }
  }

  /** What has been admitted stays admitted. */
  lemma {:induction false} AdmittedGrows(
    opening: Ledger, specs: seq<OrderSpec>, n: nat, ctx: Context, nonces: nat -> Bytes, token: Token)
    requires AllComputable(specs, ctx) && n <= |specs|
    ensures TotalOutflow(AdmitAll(opening, specs[..n], ctx, nonces).orders, token, ctx)
         <= TotalOutflow(AdmitAll(opening, specs, ctx, nonces).orders, token, ctx)
    decreases |specs| - n
  {
    if n == |specs| {
      assert specs[..n] == specs;
    } else {
      AdmitNext(opening, specs, n, ctx, nonces);
      AdmitGrows(AdmitAll(opening, specs[..n], ctx, nonces), n, specs[n], ctx, nonces(n), OutflowOn(token, ctx.tokenDecimals));
      AdmittedGrows(opening, specs, n + 1, ctx, nonces, token);
    }
  }

  lemma AdmitGrows(ledger: Ledger, i: nat, spec: OrderSpec, ctx: Context, nonce: Bytes, weight: Order -> nat)
    requires Computable(spec, ctx)
    ensures Total(ledger.orders, weight) <= Total(Admit(ledger, i, spec, ctx, nonce).orders, weight)
  {
    CandidateOf(spec, ctx, i, nonce);
    if ConvertOrder(spec, ctx, nonce).Ok? {
      TotalSnoc(ledger.orders, ConvertOrder(spec, ctx, nonce).value, weight);
    }
  }

  /** A slip admits an order that takes its token past 2^64. */
  lemma SlipOverruns(opening: Ledger, specs: seq<OrderSpec>, n: nat, ctx: Context, nonces: nat -> Bytes)
    requires AllComputable(specs, ctx) && opening.orders == [] && opening.spent == map[]
    requires n < |specs| && SlipsAt(specs, n, ctx) && forall i :: 0 <= i < n ==> !SlipsAt(specs, i, ctx)
    ensures TotalOutflow(AdmitAll(opening, specs, ctx, nonces).orders, AskOf(specs[n], ctx).value.token, ctx) >= TWO64
  {
    FrontNeverSlips(specs, ctx, n);
    LedgerExact(opening, specs[..n], ctx, nonces);
    AdmitNext(opening, specs, n, ctx, nonces);
    AskOfOrder(specs[n], ctx, n, nonces(n));
    var before, order := AdmitAll(opening, specs[..n], ctx, nonces), ConvertOrder(specs[n], ctx, nonces(n)).value;
    var ask, spent := AskOf(specs[n], ctx).value, ExactLedger(specs[..n], ctx);
    assert ExactToken(before, spent, ask.token, OutflowOn(ask.token, ctx.tokenDecimals));
    AskWeighs(order, ctx, ask.token);
    SlipEnters(before, n, order, spent, ask, ctx, OutflowOn(ask.token, ctx.tokenDecimals));
    AdmittedGrows(opening, specs, n + 1, ctx, nonces, ask.token);
  }

  lemma SlipEnters(
    ledger: Ledger, i: nat, order: Order, spent: map<Token, nat>, ask: Ask, ctx: Context, weight: Order -> nat)
    requires ExactToken(ledger, spent, ask.token, weight) && weight(order) == ask.amount && Slips(spent, ask, ctx)
    ensures Total(Enter(ledger, i, order, ask.token, Wrap(ask.amount), ctx).orders, weight) >= TWO64
  {
    WrappedCheck(Lookup(ledger.spent, ask.token), ask.amount, Lookup(ctx.projectedBalances, ask.token));
    TotalSnoc(ledger.orders, order, weight);
  }

  lemma {:induction false} FirstSlip(specs: seq<OrderSpec>, ctx: Context, k: nat) returns (n: nat)
    requires AllComputable(specs, ctx) && k < |specs| && SlipsAt(specs, k, ctx)
    ensures n <= k && SlipsAt(specs, n, ctx) && forall i :: 0 <= i < n ==> !SlipsAt(specs, i, ctx)
  {
    n := k;
    if i: nat :| i < k && SlipsAt(specs, i, ctx) { n := FirstSlip(specs, ctx, i); }
  }

  /** Admitted orders are covered exactly when, summed exactly, no running total slips past 2^64 under the balance. */
  lemma CoveredExactly(specs: seq<OrderSpec>, ctx: Context, nonces: nat -> Bytes)
    requires AllComputable(Effective(specs, ctx), ctx)
    ensures var orders := Validated(specs, ctx, nonces).orders;
      AllAdmissible(orders, ctx) && (Covered(orders, ctx) <==> NeverSlips(Effective(specs, ctx), ctx))
  {
    var effective, opening := Effective(specs, ctx), Opening(specs, ctx);
    var ledger := Validated(specs, ctx, nonces);
    ValidatedAccounted(specs, ctx, nonces);
    if NeverSlips(effective, ctx) {
      LedgerExact(opening, effective, ctx, nonces);
      forall token ensures TotalOutflow(ledger.orders, token, ctx) <= Lookup(ctx.projectedBalances, token) {
        assert ExactToken(ledger, ExactLedger(effective, ctx), token, OutflowOn(token, ctx.tokenDecimals));
        assert AccountedToken(ledger, token, ctx);
      }
    } else {
      var k :| 0 <= k < |effective| && SlipsAt(effective, k, ctx);
      var n := FirstSlip(effective, ctx, k);
      SlipOverruns(opening, effective, n, ctx, nonces);
      var token := AskOf(effective[n], ctx).value.token;
      assert TotalOutflow(ledger.orders, token, ctx) > Lookup(ctx.projectedBalances, token);
    }
  }

  lemma EnterCounts(ledger: Ledger, i: nat, order: Order, token: Token, total: U64, ctx: Context)
    ensures |EnterAt(ledger, i, order, token, total, ctx).orders| == |ledger.orders| + 1 <==> total <= Lookup(ctx.projectedBalances, token)
  {
  }

  lemma ChargedCounts(ledger: Ledger, i: nat, order: Order, spent: map<Token, nat>, ask: Ask, ctx: Context)
    requires Lookup(ledger.spent, ask.token) == SpentOn(spent, ask.token) && !Slips(spent, ask, ctx)
    ensures |Enter(ledger, i, order, ask.token, Wrap(ask.amount), ctx).orders| == |ledger.orders| + 1 <==>
      Raised(spent, ask) <= Lookup(ctx.projectedBalances, ask.token)
  {
    WrappedCheck(Lookup(ledger.spent, ask.token), ask.amount, Lookup(ctx.projectedBalances, ask.token));
    EnterCounts(ledger, i, order, ask.token, Wrap(Lookup(ledger.spent, ask.token) + Wrap(ask.amount)), ctx);
  }

  /** Admitting a spec is entering what it asks. */
  lemma AdmitIsEnter(ledger: Ledger, i: nat, spec: OrderSpec, ctx: Context, nonce: Bytes)
    requires Computable(spec, ctx)
    ensures match AskOf(spec, ctx)
      case None => Admit(ledger, i, spec, ctx, nonce).orders == ledger.orders
      case Some(ask) =>
        && ConvertOrder(spec, ctx, nonce).Ok?
        && Admit(ledger, i, spec, ctx, nonce)
             == Enter(ledger, i, ConvertOrder(spec, ctx, nonce).value, ask.token, Wrap(ask.amount), ctx)
  {
    AskOfOrder(spec, ctx, i, nonce);
  }

  lemma AdmitCounts(ledger: Ledger, i: nat, spec: OrderSpec, spent: map<Token, nat>, ctx: Context, nonce: Bytes)
    requires Computable(spec, ctx) && Exact(ledger, spent, ctx)
    requires var ask := AskOf(spec, ctx); ask.Some? ==> !Slips(spent, ask.value, ctx)
    ensures var ask := AskOf(spec, ctx);
      |Admit(ledger, i, spec, ctx, nonce).orders| == |ledger.orders| + 1 <==>
        ask.Some? && Raised(spent, ask.value) <= Lookup(ctx.projectedBalances, ask.value.token)
  {
    AdmitIsEnter(ledger, i, spec, ctx, nonce);
    var ask := AskOf(spec, ctx);
    if ask.Some? {
      assert ExactToken(ledger, spent, ask.value.token, OutflowOn(ask.value.token, ctx.tokenDecimals));
      ChargedCounts(ledger, i, ConvertOrder(spec, ctx, nonce).value, spent, ask.value, ctx);
    }
  }

  lemma PrefixComputable(specs: seq<OrderSpec>, ctx: Context, n: nat)
    requires AllComputable(specs, ctx) && n <= |specs|
    ensures AllComputable(specs[..n], ctx)
  {
  }

  /** While nothing slips, a spec is admitted exactly when it asks for something the exact ledger can still bear. */
  lemma AdmittedExactly(opening: Ledger, specs: seq<OrderSpec>, n: nat, ctx: Context, nonces: nat -> Bytes)
    requires AllComputable(specs, ctx) && opening.orders == [] && opening.spent == map[]
    requires n < |specs| && NeverSlips(specs, ctx)
    ensures AllComputable(specs[..n], ctx) && AllComputable(specs[..n + 1], ctx)
    ensures var ask := AskOf(specs[n], ctx);
      |AdmitAll(opening, specs[..n + 1], ctx, nonces).orders| == |AdmitAll(opening, specs[..n], ctx, nonces).orders| + 1 <==>
        ask.Some? && Raised(ExactLedger(specs[..n], ctx), ask.value) <= Lookup(ctx.projectedBalances, ask.value.token)
  {
    PrefixComputable(specs, ctx, n + 1);
    FrontNeverSlips(specs, ctx, n);
    LedgerExact(opening, specs[..n], ctx, nonces);
    AdmitNext(opening, specs, n, ctx, nonces);
    assert !SlipsAt(specs, n, ctx);
    AdmitCounts(AdmitAll(opening, specs[..n], ctx, nonces), n, specs[n], ExactLedger(specs[..n], ctx), ctx, nonces(n));
  }

  // ----- a plain bound ------------------------------------------------------------------

  /** What a spec asks of one token. */
  function AskedOf(spec: OrderSpec, token: Token, ctx: Context): nat {
    if !Computable(spec, ctx) then 0
    else
      var ask := AskOf(spec, ctx);
      if ask.Some? && ask.value.token == token then ask.value.amount else 0
  }

  function AskedOn(token: Token, ctx: Context): OrderSpec -> nat {
    (spec: OrderSpec) => AskedOf(spec, token, ctx)
  }

  ghost predicate DemandFits(specs: seq<OrderSpec>, ctx: Context) {
    forall token :: Total(specs, AskedOn(token, ctx)) < TWO64
  }

  lemma {:induction false} LedgerWithinDemand(specs: seq<OrderSpec>, ctx: Context, token: Token)
    requires AllComputable(specs, ctx)
    ensures SpentOn(ExactLedger(specs, ctx), token) <= Total(specs, AskedOn(token, ctx))
  {
    if specs != [] { LedgerWithinDemand(specs[..|specs| - 1], ctx, token); }
  }

  /** If all that is asked of each token stays below 2^64, no total slips. */
  lemma ModestDemand(specs: seq<OrderSpec>, ctx: Context)
    requires AllComputable(specs, ctx) && DemandFits(specs, ctx)
    ensures NeverSlips(specs, ctx)
  {
    forall i | 0 <= i < |specs| ensures !SlipsAt(specs, i, ctx) {
      if AskOf(specs[i], ctx).Some? {
        var token := AskOf(specs[i], ctx).value.token;
        LedgerWithinDemand(specs[..i], ctx, token);
        NextWithin(specs, i, AskedOn(token, ctx));
        assert Total(specs, AskedOn(token, ctx)) < TWO64;
      }
    }
  }

  lemma NextWithin<T>(s: seq<T>, i: nat, weight: T -> nat)
    requires i < |s|
    ensures Total(s[..i], weight) + weight(s[i]) <= Total(s, weight)
  {
    TotalSnoc(s[..i], s[i], weight);
    assert s == (s[..i] + [s[i]]) + s[i + 1..];
    TotalAppend(s[..i] + [s[i]], s[i + 1..], weight);
  }

  const HALF: U64 := 0x8000_0000_0000_0000

  function HalfContext(): Context {
    Context({"A/B"}, map[], map[], map["A" := HALF], 2, 1, 1)
  }

  function HalfOrder(nonce: Bytes): Order {
    Order(1, "A/B", SELL, 1, HALF, 1, nonce)
  }

  lemma HalfPair()
    ensures BaseToken("A/B") == "A"
  {
    assert "A/B"[1..] == "/B" && Find("/B", '/') == 0 && Find("A/B", '/') == 1;
    assert "A/B"[..1] == "A" && "A/B"[2..] == "B";
  }

  /** A sale of 2^63 base units, as a strategy would write it. */
  ghost predicate SellsHalf(spec: OrderSpec) {
    && spec.pair == "A/B"
    && forall nonce :: ConvertOrder(spec, HalfContext(), nonce) == Ok(HalfOrder(nonce))
  }

  lemma HalfSale(price: string, quantity: string)
    requires ParseFixed(price, 8) == Ok(1) && ParseFixed(quantity, 5) == Ok(HALF)
    ensures SellsHalf(OrderSpec("A/B", "sell", price, quantity))
  {
    HalfPair();
  }

  lemma HalfSpec() returns (spec: OrderSpec)
    ensures SellsHalf(spec) && spec.side == "sell"
  {
    var price, quantity := BalanceDisplay(1, 8), BalanceDisplay(HALF, 5);
    DisplayRoundTrip(1, 8);
    DisplayRoundTrip(HALF, 5);
    HalfSale(price, quantity);
    spec := OrderSpec("A/B", "sell", price, quantity);
  }

  lemma HalfOutflow(order: Order)
    requires order.symbol == "A/B" && order.side == SELL && order.quantity == HALF
    ensures ComputeOutflow(order, map[]) == ("A", HALF) && OutflowOf(order, "A", map[]) == HALF
  {
    HalfPair();
  }

  lemma HalfEnter(ledger: Ledger, i: nat, order: Order)
    requires order.symbol == "A/B" && order.price == 1
    requires Lookup(ledger.spent, "A") == 0 || Lookup(ledger.spent, "A") == HALF
    ensures var next := Enter(ledger, i, order, "A", HALF, HalfContext());
      next.orders == ledger.orders + [order] && Lookup(next.spent, "A") == Wrap(Lookup(ledger.spent, "A") + HALF)
  {
  }

  /** One more sale of 2^63 has been entered. */
  ghost predicate EnteredHalf(before: Ledger, after: Ledger, nonce: Bytes) {
    after.orders == before.orders + [HalfOrder(nonce)] && Lookup(after.spent, "A") == Wrap(Lookup(before.spent, "A") + HALF)
  }

  lemma HalfAdmitted(before: Ledger, i: nat, spec: OrderSpec, nonce: Bytes)
    requires SellsHalf(spec) && (Lookup(before.spent, "A") == 0 || Lookup(before.spent, "A") == HALF)
    ensures Computable(spec, HalfContext())
    ensures EnteredHalf(before, Admit(before, i, spec, HalfContext(), nonce), nonce)
  {
    assert ConvertOrder(spec, HalfContext(), []) == Ok(HalfOrder([]));
    HalfOutflow(HalfOrder(nonce));
    HalfEnter(before, i, HalfOrder(nonce));
  }

  lemma HalvesUncovered(a: Order, b: Order)
    requires a.symbol == b.symbol == "A/B" && a.side == b.side == SELL && a.quantity == b.quantity == HALF
    ensures !Covered([a, b], HalfContext())
  {
    HalfOutflow(a);
    HalfOutflow(b);
    TotalPair(a, b, OutflowOn("A", map[]));
    assert TotalOutflow([a, b], "A", HalfContext()) == HALF + HALF;
  }

  lemma AdmitPair(opening: Ledger, specs: seq<OrderSpec>, ctx: Context, nonces: nat -> Bytes)
    requires AllComputable(specs, ctx) && |specs| == 2
    ensures AdmitAll(opening, specs, ctx, nonces)
         == Admit(Admit(opening, 0, specs[0], ctx, nonces(0)), 1, specs[1], ctx, nonces(1))
  {
    AdmitNext(opening, specs, 0, ctx, nonces);
    AdmitNext(opening, specs, 1, ctx, nonces);
    assert specs[..2] == specs && specs[..0] == [];
  }

  lemma TwoEntered(opening: Ledger, middle: Ledger, last: Ledger, first: Bytes, second: Bytes)
    requires opening.orders == [] && opening.spent == map[]
    requires EnteredHalf(opening, middle, first)
    ensures Lookup(middle.spent, "A") == HALF
    ensures EnteredHalf(middle, last, second) ==> last.orders == [HalfOrder(first), HalfOrder(second)]
  {
  }

  lemma TwoHalves(spec: OrderSpec, nonces: nat -> Bytes)
    requires SellsHalf(spec)
    ensures AllComputable(Effective([spec, spec], HalfContext()), HalfContext())
    ensures Validated([spec, spec], HalfContext(), nonces).orders == [HalfOrder(nonces(0)), HalfOrder(nonces(1))]
  {
    var specs, ctx := [spec, spec], HalfContext();
    assert Effective(specs, ctx) == specs;
    var opening := Opening(specs, ctx);
    HalfAdmitted(opening, 0, spec, nonces(0));
    var middle := Admit(opening, 0, spec, ctx, nonces(0));
    var last := Admit(middle, 1, spec, ctx, nonces(1));
    TwoEntered(opening, middle, last, nonces(0), nonces(1));
    HalfAdmitted(middle, 1, spec, nonces(1));
    AdmitPair(opening, specs, ctx, nonces);
  }

  /** Two sales of 2^63 on a balance of 2^63: the running total wraps to zero and both are admitted. */
  lemma WrappedTotalAdmits(nonces: nat -> Bytes) returns (spec: OrderSpec)
    ensures spec.side == "sell" && AllComputable(Effective([spec, spec], HalfContext()), HalfContext())
    ensures var orders := Validated([spec, spec], HalfContext(), nonces).orders;
      |orders| == 2 && !Covered(orders, HalfContext())
  {
    spec := HalfSpec();
    TwoHalves(spec, nonces);
    HalvesUncovered(HalfOrder(nonces(0)), HalfOrder(nonces(1)));
  }

  /** Every spec ends as one order or one warning. */
  lemma {:induction false} OneOutcomeEach(opening: Ledger, specs: seq<OrderSpec>, ctx: Context, nonces: nat -> Bytes)
    requires AllComputable(specs, ctx)
    ensures var ledger := AdmitAll(opening, specs, ctx, nonces);
      && |ledger.orders| - |opening.orders| + |ledger.warnings| - |opening.warnings| == |specs|
      && |ledger.orders| >= |opening.orders| && |ledger.warnings| >= |opening.warnings|
  {
    if specs != [] { OneOutcomeEach(opening, specs[..|specs| - 1], ctx, nonces); }
  }

  /** At most the quota is admitted, and nothing is dropped without a warning. */
  lemma ValidatedQuota(specs: seq<OrderSpec>, ctx: Context, nonces: nat -> Bytes)
    requires AllComputable(Effective(specs, ctx), ctx)
    ensures var ledger := Validated(specs, ctx, nonces);
      && |ledger.orders| <= ctx.commitsPerBatch
      && (ledger.warnings == [] <==> |ledger.orders| == |specs|)
  {
    OneOutcomeEach(Opening(specs, ctx), Effective(specs, ctx), ctx, nonces);
  }
}
