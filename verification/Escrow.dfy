/** Projected balances: reservations, expected inflows, earmarks and their settlement. */
module Escrow {
  import opened Basics
  import Decimal

  type Pending = map<MatchHash, U64>

  datatype TokenBalance = TokenBalance(confirmed: U64, pendingOut: Pending, pendingIn: Pending, earmarked: U64)

  type Balances = map<Token, TokenBalance>

  datatype EscrowError =
    | InsufficientBalance(need: U64, have: U64)
    | UnknownToken(token: Token)
    | DuplicatePending(hash: MatchHash)
    | PendingNotFound(pending: MatchHash)
    | EarmarkExceedsProjected(wanted: U64, available: U64)

  datatype Side = Buy | Sell

  datatype Step = Step(balances: Balances, result: Result<(), EscrowError>)

  const NO_BALANCE := TokenBalance(0, map[], map[], 0)

  function Of(balances: Balances, token: Token): TokenBalance {
    if token in balances then balances[token] else NO_BALANCE
  }

  // ----- sums ---------------------------------------------------------------

  ghost function Sum(m: Pending): nat {
    if m == map[] then 0
    else var h :| h in m; m[h] + Sum(m - {h})
  }

  lemma {:induction false} SumRemove(m: Pending, h: MatchHash)
    requires h in m
    ensures Sum(m) == m[h] + Sum(m - {h})
    decreases |m|
  {
    var g :| g in m && Sum(m) == m[g] + Sum(m - {g});
    if g != h {
      SumRemove(m - {g}, h);
      SumRemove(m - {h}, g);
      assert m - {g} - {h} == m - {h} - {g};
    }
  }

  lemma SumInsert(m: Pending, h: MatchHash, amount: U64)
    requires h !in m
    ensures Sum(m[h := amount]) == Sum(m) + amount
  {
    SumRemove(m[h := amount], h);
    assert m[h := amount] - {h} == m;
  }

  lemma SumDrop(m: Pending, h: MatchHash)
    ensures Sum(m - {h}) <= Sum(m)
  {
    if h in m { SumRemove(m, h); } else { assert m - {h} == m; }
  }

  /** The iterator sum over the values, in release arithmetic. */
  method SumValues(m: Pending) returns (s: U64)
    ensures s == Wrap(Sum(m))
  {
    var left := m;
    s := 0;
    ghost var added: nat := 0;
    while left != map[]
      invariant added + Sum(left) == Sum(m) && s == Wrap(added)
      decreases |left|
    {
      var h :| h in left;
      SumRemove(left, h);
      added := added + left[h];
      s := Wrap(s + left[h]);
      left := left - {h};
    }
  }

  // ----- the projected balance ------------------------------------------------

  ghost function Projected(b: TokenBalance): nat {
    SaturatingSub(SaturatingSub(b.confirmed, Wrap(Sum(b.pendingOut))), b.earmarked)
  }

  ghost function Held(b: TokenBalance): nat {
    Sum(b.pendingOut) + b.earmarked
  }

  /** All that is reserved or earmarked is covered by the confirmed balance. */
  ghost predicate SolventToken(b: TokenBalance) {
    Held(b) <= b.confirmed
  }

  ghost predicate Solvent(balances: Balances) {
    forall token :: token in balances ==> SolventToken(balances[token])
  }

  /** In a solvent tracker neither saturating subtraction clips. */
  lemma ProjectedExact(b: TokenBalance)
    requires SolventToken(b)
    ensures Projected(b) == b.confirmed - Sum(b.pendingOut) - b.earmarked
  {
  }

  // ----- what each operation does ----------------------------------------------

  ghost function Reserved(balances: Balances, token: Token, h: MatchHash, amount: U64): Step {
    var b := Of(balances, token);
    if h in b.pendingOut then Step(balances[token := b], Err(DuplicatePending(h)))
    else if amount > Projected(b) then Step(balances[token := b], Err(InsufficientBalance(amount, Projected(b))))
    else Step(balances[token := b.(pendingOut := b.pendingOut[h := amount])], Ok(()))
  }

  ghost function Tracked(balances: Balances, token: Token, h: MatchHash, amount: U64): Step {
    var b := Of(balances, token);
    if h in b.pendingIn then Step(balances[token := b], Err(DuplicatePending(h)))
    else Step(balances[token := b.(pendingIn := b.pendingIn[h := amount])], Ok(()))
  }

  predicate PendingIn(b: TokenBalance, h: MatchHash) {
    h in b.pendingOut || h in b.pendingIn
  }

  predicate HasPending(balances: Balances, h: MatchHash) {
    exists token :: token in balances && PendingIn(balances[token], h)
  }

  function ReleaseIn(b: TokenBalance, h: MatchHash): TokenBalance {
    b.(pendingOut := b.pendingOut - {h}, pendingIn := b.pendingIn - {h})
  }

  /** Confirmation drops the outflow without debiting `confirmed`, and credits the inflow. */
  function ConfirmIn(b: TokenBalance, h: MatchHash): TokenBalance {
    ReleaseIn(b, h).(confirmed := if h in b.pendingIn then Wrap(b.confirmed + b.pendingIn[h]) else b.confirmed)
  }

  ghost function Confirmed(balances: Balances, h: MatchHash): Step {
    Step(map token | token in balances :: ConfirmIn(balances[token], h),
         if HasPending(balances, h) then Ok(()) else Err(PendingNotFound(h)))
  }

  ghost function Released(balances: Balances, h: MatchHash): Step {
    Step(map token | token in balances :: ReleaseIn(balances[token], h),
         if HasPending(balances, h) then Ok(()) else Err(PendingNotFound(h)))
  }

  ghost function Earmarked(balances: Balances, token: Token, amount: U64): Step {
    var b := Of(balances, token);
    if amount > Projected(b) then Step(balances[token := b], Err(EarmarkExceedsProjected(amount, Projected(b))))
    else Step(balances[token := b.(earmarked := Wrap(b.earmarked + amount))], Ok(()))
  }

  function UnearmarkIn(b: TokenBalance, amount: U64, executed: bool): TokenBalance {
    b.(earmarked := SaturatingSub(b.earmarked, amount),
       confirmed := if executed then SaturatingSub(b.confirmed, amount) else b.confirmed)
  }

  ghost function Unearmarked(balances: Balances, token: Token, amount: U64, executed: bool): Step {
    if token !in balances then Step(balances, Err(UnknownToken(token)))
    else Step(balances[token := UnearmarkIn(balances[token], amount, executed)], Ok(()))
  }

  /** Quote units for `q` units at `price`, cut to u64. */
  function QuoteAmount(q: U64, price: U64, divisor: nat): U64
    requires divisor > 0
  {
    Wrap(QuoteUnits(q, price, divisor))
  }

  ghost function Applied(
    balances: Balances, h: MatchHash, side: Side, baseToken: Token, quoteToken: Token,
    fill: U64, buyerPrice: U64, settlementPrice: U64, divisor: nat): Step
    requires divisor > 0
  {
    var outToken := if side == Buy then quoteToken else baseToken;
    var inToken := if side == Buy then baseToken else quoteToken;
    var outflow := if side == Buy then QuoteAmount(fill, buyerPrice, divisor) else fill;
    var inflow := if side == Buy then fill else QuoteAmount(fill, settlementPrice, divisor);
    var reserved := Reserved(balances, outToken, h, outflow);
    if reserved.result.Err? then reserved else Tracked(reserved.balances, inToken, h, inflow)
  }

  // ----- the tracker -------------------------------------------------------------

  class EscrowTracker {
    var balances: Balances

    constructor ()
      ensures balances == map[]
    {
      balances := map[];
    }

    method ProjectedOf(b: TokenBalance) returns (p: U64)
      ensures p == Projected(b)
    {
      var total := SumValues(b.pendingOut);
      p := SaturatingSub(SaturatingSub(b.confirmed, total), b.earmarked);
    }

    method SetConfirmed(token: Token, amount: U64)
      modifies this
      ensures balances == old(balances)[token := Of(old(balances), token).(confirmed := amount)]
    {
      balances := balances[token := Of(balances, token).(confirmed := amount)];
    }

    method ReserveOutflow(token: Token, h: MatchHash, amount: U64) returns (r: Result<(), EscrowError>)
      modifies this
      ensures Step(balances, r) == Reserved(old(balances), token, h, amount)
    {
      var b := Of(balances, token);
      balances := balances[token := b];
      if h in b.pendingOut { return Err(DuplicatePending(h)); }
      var have := ProjectedOf(b);
      if amount > have { return Err(InsufficientBalance(amount, have)); }
      balances := balances[token := b.(pendingOut := b.pendingOut[h := amount])];
      return Ok(());
    }

    method TrackInflow(token: Token, h: MatchHash, amount: U64) returns (r: Result<(), EscrowError>)
      modifies this
      ensures Step(balances, r) == Tracked(old(balances), token, h, amount)
    {
      var b := Of(balances, token);
      balances := balances[token := b];
      if h in b.pendingIn { return Err(DuplicatePending(h)); }
      balances := balances[token := b.(pendingIn := b.pendingIn[h := amount])];
      return Ok(());
    }

    method ConfirmToken(b: TokenBalance, h: MatchHash) returns (b': TokenBalance, pending: bool)
      ensures b' == ConfirmIn(b, h) && pending == PendingIn(b, h)
    {
      b', pending := b, false;
      if h in b'.pendingOut {
        b' := b'.(pendingOut := b'.pendingOut - {h});
        pending := true;
      }
      if h in b'.pendingIn {
        b' := b'.(confirmed := Wrap(b'.confirmed + b'.pendingIn[h]), pendingIn := b'.pendingIn - {h});
        pending := true;
      }
      Untouched(b, h);
    }

    method ConfirmSettlement(h: MatchHash) returns (r: Result<(), EscrowError>)
      modifies this
      ensures Step(balances, r) == Confirmed(old(balances), h)
    {
      var found := false;
      var left := balances.Keys;
      while left != {}
        invariant left <= old(balances).Keys == balances.Keys
        invariant forall t :: t in balances ==>
          balances[t] == if t in left then old(balances)[t] else ConfirmIn(old(balances)[t], h)
        invariant found <==> exists t :: t in old(balances) && t !in left && PendingIn(old(balances)[t], h)
        decreases left
      {
        var token :| token in left;
        var b, pending := ConfirmToken(balances[token], h);
        found := found || pending;
        balances, left := balances[token := b], left - {token};
      }
      r := if found then Ok(()) else Err(PendingNotFound(h));
    }

    method ReleasePending(h: MatchHash) returns (r: Result<(), EscrowError>)
      modifies this
      ensures Step(balances, r) == Released(old(balances), h)
    {
      var found := false;
      var left := balances.Keys;
      while left != {}
        invariant left <= old(balances).Keys == balances.Keys
        invariant forall t :: t in balances ==>
          balances[t] == if t in left then old(balances)[t] else ReleaseIn(old(balances)[t], h)
        invariant found <==> exists t :: t in old(balances) && t !in left && PendingIn(old(balances)[t], h)
        decreases left
      {
        var token :| token in left;
        var b := balances[token];
        found := found || h in b.pendingOut || h in b.pendingIn;
        balances, left := balances[token := ReleaseIn(b, h)], left - {token};
      }
      r := if found then Ok(()) else Err(PendingNotFound(h));
    }

    method EarmarkWithdrawal(token: Token, amount: U64) returns (r: Result<(), EscrowError>)
      modifies this
      ensures Step(balances, r) == Earmarked(old(balances), token, amount)
    {
      var b := Of(balances, token);
      balances := balances[token := b];
      var have := ProjectedOf(b);
      if amount > have { return Err(EarmarkExceedsProjected(amount, have)); }
      balances := balances[token := b.(earmarked := Wrap(b.earmarked + amount))];
      return Ok(());
    }

    method ReleaseEarmark(token: Token, amount: U64, executed: bool) returns (r: Result<(), EscrowError>)
      modifies this
      ensures Step(balances, r) == Unearmarked(old(balances), token, amount, executed)
    {
      if token !in balances { return Err(UnknownToken(token)); }
      balances := balances[token := UnearmarkIn(balances[token], amount, executed)];
      return Ok(());
    }

    method ApplyMatch(
      h: MatchHash, side: Side, baseToken: Token, quoteToken: Token,
      fill: U64, buyerPrice: U64, settlementPrice: U64, baseDecimals: nat, quoteDecimals: nat)
      returns (r: Result<(), EscrowError>)
      requires Divisor(baseDecimals, quoteDecimals) > 0
      modifies this
      ensures Step(balances, r) == Applied(old(balances), h, side, baseToken, quoteToken,
                fill, buyerPrice, settlementPrice, Divisor(baseDecimals, quoteDecimals))
    {
      var divisor := Divisor(baseDecimals, quoteDecimals);
      match side {
        case Buy =>
          r := ReserveOutflow(quoteToken, h, QuoteAmount(fill, buyerPrice, divisor));
          if r.Ok? { r := TrackInflow(baseToken, h, fill); }
        case Sell =>
          r := ReserveOutflow(baseToken, h, fill);
          if r.Ok? { r := TrackInflow(quoteToken, h, QuoteAmount(fill, settlementPrice, divisor)); }
      }
    }
  }

  lemma Untouched(b: TokenBalance, h: MatchHash)
    ensures h !in b.pendingOut ==> b.pendingOut - {h} == b.pendingOut
    ensures h !in b.pendingIn ==> b.pendingIn - {h} == b.pendingIn
  {
  }

  // ----- solvency over every run ---------------------------------------------------

  datatype Op =
    | OpSetConfirmed(token: Token, amount: U64)
    | OpReserve(token: Token, hash: MatchHash, amount: U64)
    | OpTrack(token: Token, hash: MatchHash, amount: U64)
    | OpConfirm(hash: MatchHash)
    | OpRelease(hash: MatchHash)
    | OpEarmark(token: Token, amount: U64)
    | OpReleaseEarmark(token: Token, amount: U64, executed: bool)

  ghost function Do(balances: Balances, op: Op): Step {
    match op
    case OpSetConfirmed(t, a) => Step(balances[t := Of(balances, t).(confirmed := a)], Ok(()))
    case OpReserve(t, h, a) => Reserved(balances, t, h, a)
    case OpTrack(t, h, a) => Tracked(balances, t, h, a)
    case OpConfirm(h) => Confirmed(balances, h)
    case OpRelease(h) => Released(balances, h)
    case OpEarmark(t, a) => Earmarked(balances, t, a)
    case OpReleaseEarmark(t, a, executed) => Unearmarked(balances, t, a, executed)
  }

  /** What the chain must respect for the tracker to stay covered. */
  ghost predicate Admissible(balances: Balances, op: Op) {
    match op
    case OpSetConfirmed(t, a) => Held(Of(balances, t)) <= a
    case OpReleaseEarmark(t, a, executed) => executed ==> a <= Of(balances, t).earmarked
    case OpConfirm(h) => forall t :: t in balances && h in balances[t].pendingIn ==>
      balances[t].confirmed + balances[t].pendingIn[h] < TWO64
    case _ => true
  }

  ghost function Run(balances: Balances, ops: seq<Op>): Balances {
    if ops == [] then balances else Do(Run(balances, ops[..|ops| - 1]), ops[|ops| - 1]).balances
  }

  ghost predicate AdmissibleRun(balances: Balances, ops: seq<Op>) {
    forall k :: 0 <= k < |ops| ==> Admissible(Run(balances, ops[..k]), ops[k])
  }

  /** Rewriting one token leaves the solvency of the others alone. */
  lemma SolventUpdate(balances: Balances, token: Token, b: TokenBalance)
    requires Solvent(balances)
    ensures Solvent(balances[token := b]) <==> SolventToken(b)
    ensures SolventToken(Of(balances, token))
  {
    var after := balances[token := b];
    if SolventToken(b) {
      forall t | t in after ensures SolventToken(after[t]) {
        assert t == token || t in balances;
      }
    } else {
      assert after[token] == b;
    }
  }

  lemma ReservedSolvent(b: TokenBalance, h: MatchHash, amount: U64)
    requires SolventToken(b) && h !in b.pendingOut && amount <= Projected(b)
    ensures SolventToken(b.(pendingOut := b.pendingOut[h := amount]))
  {
    ProjectedExact(b);
    SumInsert(b.pendingOut, h, amount);
  }

  lemma EarmarkedSolvent(b: TokenBalance, amount: U64)
    requires SolventToken(b) && amount <= Projected(b)
    ensures Wrap(b.earmarked + amount) == b.earmarked + amount
    ensures SolventToken(b.(earmarked := Wrap(b.earmarked + amount)))
  {
    ProjectedExact(b);
  }

  lemma DroppedSolvent(b: TokenBalance, h: MatchHash)
    requires SolventToken(b)
    ensures SolventToken(ReleaseIn(b, h))
    ensures (h in b.pendingIn ==> b.confirmed + b.pendingIn[h] < TWO64) ==> SolventToken(ConfirmIn(b, h))
  {
    SumDrop(b.pendingOut, h);
  }

  /** One token after an operation that rewrites a single token. */
  ghost function Rewritten(balances: Balances, op: Op): TokenBalance
    requires !op.OpConfirm? && !op.OpRelease? && (op.OpReleaseEarmark? ==> op.token in balances)
  {
    Do(balances, op).balances[op.token]
  }

  lemma RewrittenSolvent(balances: Balances, op: Op)
    requires Solvent(balances) && Admissible(balances, op)
    requires !op.OpConfirm? && !op.OpRelease? && (op.OpReleaseEarmark? ==> op.token in balances)
    ensures SolventToken(Rewritten(balances, op))
    ensures Do(balances, op).balances == balances[op.token := Rewritten(balances, op)]
  {
    var b := Of(balances, op.token);
    SolventUpdate(balances, op.token, b);
    match op
    case OpReserve(t, h, a) =>
      if h !in b.pendingOut && a <= Projected(b) { ReservedSolvent(b, h, a); }
    case OpEarmark(t, a) =>
      if a <= Projected(b) { EarmarkedSolvent(b, a); }
    case _ =>
  }

  lemma StepSolvent(balances: Balances, op: Op)
    requires Solvent(balances) && Admissible(balances, op)
    ensures Solvent(Do(balances, op).balances)
  {
    if op.OpConfirm? || op.OpRelease? {
      forall t | t in balances
        ensures SolventToken(ReleaseIn(balances[t], op.hash)) && (op.OpConfirm? ==> SolventToken(ConfirmIn(balances[t], op.hash)))
      {
        DroppedSolvent(balances[t], op.hash);
      }
    } else if op.OpReleaseEarmark? && op.token !in balances {
    } else {
      RewrittenSolvent(balances, op);
      SolventUpdate(balances, op.token, Rewritten(balances, op));
    }
  }

  /** Over every admissible run, reservations and earmarks stay covered. */
  lemma {:induction false} RunSolvent(balances: Balances, ops: seq<Op>)
    requires Solvent(balances) && AdmissibleRun(balances, ops)
    ensures Solvent(Run(balances, ops))
  {
    if ops != [] {
      var front := ops[..|ops| - 1];
      forall k | 0 <= k < |front| ensures Admissible(Run(balances, front[..k]), front[k]) {
        assert front[..k] == ops[..k] && front[k] == ops[k];
      }
      RunSolvent(balances, front);
      assert Admissible(Run(balances, ops[..|ops| - 1]), ops[|ops| - 1]);
      StepSolvent(Run(balances, front), ops[|ops| - 1]);
    }
  }

  /** So `projected` never clips: with what is held it makes up the confirmed balance. */
  lemma RunProjectedExact(balances: Balances, ops: seq<Op>, token: Token)
    requires Solvent(balances) && AdmissibleRun(balances, ops)
    ensures var b := Of(Run(balances, ops), token);
      Projected(b) + Sum(b.pendingOut) + b.earmarked == b.confirmed
  {
    RunSolvent(balances, ops);
    ProjectedExact(Of(Run(balances, ops), token));
  }

  /** A chain reading keeps a solvent tracker solvent exactly when it covers what is held. */
  lemma SetConfirmedExact(balances: Balances, token: Token, amount: U64)
    requires Solvent(balances)
    ensures Solvent(Do(balances, OpSetConfirmed(token, amount)).balances) <==> Held(Of(balances, token)) <= amount
  {
    SolventUpdate(balances, token, Of(balances, token).(confirmed := amount));
  }

  /** An executed release past the earmark is covered only by balance that is not reserved. */
  lemma ExecutedReleaseExact(balances: Balances, token: Token, amount: U64)
    requires Solvent(balances) && token in balances
    ensures Solvent(Do(balances, OpReleaseEarmark(token, amount, true)).balances)
       <==> (|| amount <= balances[token].earmarked
             || Sum(balances[token].pendingOut) <= SaturatingSub(balances[token].confirmed, amount))
  {
    SolventUpdate(balances, token, UnearmarkIn(balances[token], amount, true));
  }

  /** A confirmation leaves the tracker solvent exactly when the credited balances, as they wrap, still cover what stays
      held. */
  lemma ConfirmedExact(balances: Balances, h: MatchHash)
    ensures Solvent(Confirmed(balances, h).balances) <==>
      forall token :: token in balances ==>
        var b := balances[token];
        Held(ReleaseIn(b, h)) <= if h in b.pendingIn then Wrap(b.confirmed + b.pendingIn[h]) else b.confirmed
  {
    var after := Confirmed(balances, h).balances;
    forall token | token in balances
      ensures after[token] == ConfirmIn(balances[token], h) && Held(after[token]) == Held(ReleaseIn(balances[token], h))
    {
    }
  }

  // ----- round trips -----------------------------------------------------------------

  ghost predicate SameBalances(a: Balances, b: Balances) {
    forall token :: Of(a, token) == Of(b, token)
  }

  lemma RemoveInserted(m: Pending, h: MatchHash, amount: U64)
    requires h !in m
    ensures m[h := amount] - {h} == m && m - {h} == m
  {
  }

  lemma NotPendingAnywhere(balances: Balances, h: MatchHash, token: Token)
    requires !HasPending(balances, h)
    ensures !PendingIn(Of(balances, token), h)
  {
  }

  /** From a clean hash the inflow is never a duplicate: a match fails only in its reservation, and then leaves no trace. */
  lemma AppliedOutcome(
    balances: Balances, h: MatchHash, side: Side, baseToken: Token, quoteToken: Token,
    fill: U64, buyerPrice: U64, settlementPrice: U64, divisor: nat)
    requires divisor > 0 && !HasPending(balances, h)
    ensures var applied := Applied(balances, h, side, baseToken, quoteToken, fill, buyerPrice, settlementPrice, divisor);
      var outToken, inToken := if side == Buy then quoteToken else baseToken, if side == Buy then baseToken else quoteToken;
      var outflow := if side == Buy then QuoteAmount(fill, buyerPrice, divisor) else fill;
      var inflow := if side == Buy then fill else QuoteAmount(fill, settlementPrice, divisor);
      && (applied.result.Ok? <==> outflow <= Projected(Of(balances, outToken)))
      && (applied.result.Err? ==> SameBalances(applied.balances, balances))
      && (applied.result.Ok? ==> applied.balances == Booked(balances, h, outToken, outflow, inToken, inflow))
  {
    var outToken, inToken := if side == Buy then quoteToken else baseToken, if side == Buy then baseToken else quoteToken;
    NotPendingAnywhere(balances, h, outToken);
    NotPendingAnywhere(balances, h, inToken);
  }

  /** An outflow reserved on one token and an inflow expected on another. */
  function Booked(balances: Balances, h: MatchHash, outToken: Token, outflow: U64, inToken: Token, inflow: U64): Balances {
    var b := Of(balances, outToken);
    var reserved := balances[outToken := b.(pendingOut := b.pendingOut[h := outflow])];
    var i := Of(reserved, inToken);
    reserved[inToken := i.(pendingIn := i.pendingIn[h := inflow])]
  }

  lemma BookedUndone(balances: Balances, h: MatchHash, outToken: Token, outflow: U64, inToken: Token, inflow: U64, token: Token)
    requires !HasPending(balances, h)
    ensures var booked := Booked(balances, h, outToken, outflow, inToken, inflow);
      && HasPending(booked, h)
      && Of(Released(booked, h).balances, token) == Of(balances, token)
      && Of(Confirmed(booked, h).balances, token)
           == Of(balances, token).(confirmed := Wrap(Of(balances, token).confirmed + if token == inToken then inflow else 0))
  {
    var booked := Booked(balances, h, outToken, outflow, inToken, inflow);
    NotPendingAnywhere(balances, h, token);
    RemoveInserted(Of(balances, token).pendingOut, h, outflow);
    RemoveInserted(Of(balances, token).pendingIn, h, inflow);
    assert PendingIn(booked[inToken], h);
  }

  lemma BookedRoundTrip(balances: Balances, h: MatchHash, outToken: Token, outflow: U64, inToken: Token, inflow: U64)
    requires !HasPending(balances, h)
    ensures var booked := Booked(balances, h, outToken, outflow, inToken, inflow);
      && Released(booked, h).result.Ok? && SameBalances(Released(booked, h).balances, balances)
      && Confirmed(booked, h).result.Ok? && Credited(Confirmed(booked, h).balances, balances, inToken, inflow)
  {
    forall token
      ensures var booked := Booked(balances, h, outToken, outflow, inToken, inflow);
        && HasPending(booked, h)
        && Of(Released(booked, h).balances, token) == Of(balances, token)
        && Of(Confirmed(booked, h).balances, token)
             == Of(balances, token).(confirmed := Wrap(Of(balances, token).confirmed + if token == inToken then inflow else 0))
    {
      BookedUndone(balances, h, outToken, outflow, inToken, inflow, token);
    }
    BookedUndone(balances, h, outToken, outflow, inToken, inflow, inToken);
  }

  /** The balances `a` are `b` with an amount credited to one token and nothing else changed. */
  ghost predicate Credited(a: Balances, b: Balances, inToken: Token, amount: U64) {
    forall token ::
      Of(a, token) == Of(b, token).(confirmed := Wrap(Of(b, token).confirmed + if token == inToken then amount else 0))
  }

  /** Releasing an applied match undoes it; confirming it leaves just the inflow on one token. */
  lemma ApplyRoundTrip(
    balances: Balances, h: MatchHash, side: Side, baseToken: Token, quoteToken: Token,
    fill: U64, buyerPrice: U64, settlementPrice: U64, divisor: nat)
    requires divisor > 0 && !HasPending(balances, h)
    ensures var applied := Applied(balances, h, side, baseToken, quoteToken, fill, buyerPrice, settlementPrice, divisor);
      var inToken := if side == Buy then baseToken else quoteToken;
      var inflow := if side == Buy then fill else QuoteAmount(fill, settlementPrice, divisor);
      && (applied.result.Err? ==> SameBalances(applied.balances, balances))
      && (applied.result.Ok? ==>
            && Released(applied.balances, h).result.Ok?
            && SameBalances(Released(applied.balances, h).balances, balances)
            && Confirmed(applied.balances, h).result.Ok?
            && Credited(Confirmed(applied.balances, h).balances, balances, inToken, inflow))
  {
    AppliedOutcome(balances, h, side, baseToken, quoteToken, fill, buyerPrice, settlementPrice, divisor);
    var outToken, inToken := if side == Buy then quoteToken else baseToken, if side == Buy then baseToken else quoteToken;
    var outflow := if side == Buy then QuoteAmount(fill, buyerPrice, divisor) else fill;
    var inflow := if side == Buy then fill else QuoteAmount(fill, settlementPrice, divisor);
    BookedRoundTrip(balances, h, outToken, outflow, inToken, inflow);
  }

  // ----- single operations -----------------------------------------------------------

  /** What a successful match books: in quote units at the buyer's limit going out for a buy, at the settlement price coming
      in for a sell, and the fill on the base token. */
  lemma AppliedAmounts(
    balances: Balances, h: MatchHash, side: Side, baseToken: Token, quoteToken: Token,
    fill: U64, buyerPrice: U64, settlementPrice: U64, baseDecimals: nat, quoteDecimals: nat)
    requires quoteDecimals <= baseDecimals + 8 <= quoteDecimals + 38 && !HasPending(balances, h)
    ensures Divisor(baseDecimals, quoteDecimals) > 0
    ensures var applied := Applied(balances, h, side, baseToken, quoteToken, fill, buyerPrice, settlementPrice,
                                   Divisor(baseDecimals, quoteDecimals));
      var base, quote := Of(applied.balances, baseToken), Of(applied.balances, quoteToken);
      applied.result.Ok? ==>
        if side == Buy then
          && h in quote.pendingOut && CutQuoteUnits(quote.pendingOut[h], fill, buyerPrice, baseDecimals, quoteDecimals)
          && h in base.pendingIn && base.pendingIn[h] == fill
        else
          && h in quote.pendingIn && CutQuoteUnits(quote.pendingIn[h], fill, settlementPrice, baseDecimals, quoteDecimals)
          && h in base.pendingOut && base.pendingOut[h] == fill
  {
    var divisor := Divisor(baseDecimals, quoteDecimals);
    Decimal.ScaleMeaning(fill, buyerPrice, baseDecimals, quoteDecimals);
    Decimal.ScaleMeaning(fill, settlementPrice, baseDecimals, quoteDecimals);
    AmountCut(fill, buyerPrice, baseDecimals, quoteDecimals);
    AmountCut(fill, settlementPrice, baseDecimals, quoteDecimals);
    AppliedOutcome(balances, h, side, baseToken, quoteToken, fill, buyerPrice, settlementPrice, divisor);
  }

  lemma AmountCut(fill: U64, price: U64, baseDecimals: nat, quoteDecimals: nat)
    requires quoteDecimals <= baseDecimals + 8 <= quoteDecimals + 38 && Divisor(baseDecimals, quoteDecimals) > 0
    ensures CutQuoteUnits(QuoteAmount(fill, price, Divisor(baseDecimals, quoteDecimals)), fill, price, baseDecimals, quoteDecimals)
  {
    Decimal.ScaleMeaning(fill, price, baseDecimals, quoteDecimals);
    assert InQuoteUnits(QuoteUnits(fill, price, Divisor(baseDecimals, quoteDecimals)), fill, price, baseDecimals, quoteDecimals);
  }

  /** What is neither reserved nor earmarked. */
  ghost function Free(b: TokenBalance): int {
    b.confirmed - Sum(b.pendingOut) - b.earmarked
  }

  /** The balances `a` are `b` but for one token. */
  ghost predicate OnlyChanged(a: Balances, b: Balances, token: Token) {
    forall t :: t != token ==> Of(a, t) == Of(b, t)
  }

  lemma FreeReserved(b: TokenBalance, h: MatchHash, amount: U64)
    requires h !in b.pendingOut
    ensures Free(b.(pendingOut := b.pendingOut[h := amount])) == Free(b) - amount
  {
    SumInsert(b.pendingOut, h, amount);
  }

  lemma UpdateOnly(balances: Balances, token: Token, b: TokenBalance)
    ensures var after := balances[token := b];
      Of(after, token) == b && OnlyChanged(after, balances, token) && (b == Of(balances, token) ==> SameBalances(after, balances))
  {
  }

  lemma FreeProjected(balances: Balances, token: Token)
    requires Solvent(balances)
    ensures Projected(Of(balances, token)) == Free(Of(balances, token))
  {
    SolventUpdate(balances, token, Of(balances, token));
    ProjectedExact(Of(balances, token));
  }

  lemma Refusal(balances: Balances, token: Token, h: MatchHash, amount: U64)
    ensures var step, b := Reserved(balances, token, h, amount), Of(balances, token);
      && (h in b.pendingOut ==> step == Step(balances[token := b], Err(DuplicatePending(h))))
      && (h !in b.pendingOut && amount > Projected(b) ==>
            step == Step(balances[token := b], Err(InsufficientBalance(amount, Projected(b)))))
      && (h !in b.pendingOut && amount <= Projected(b) ==>
            step == Step(balances[token := b.(pendingOut := b.pendingOut[h := amount])], Ok(())))
  {
  }

  /** Why a reservation is refused: a duplicate, or more than is free. */
  ghost predicate Refused(result: Result<(), EscrowError>, h: MatchHash, amount: U64, pending: bool, free: int) {
    && (pending ==> result == Err(DuplicatePending(h)))
    && (!pending && amount > free ==>
          result.Err? && result.error.InsufficientBalance? && result.error.need == amount && result.error.have == free)
  }

  /** A reservation is refused as a duplicate, then for want of free balance, each with its reason; a refusal changes nothing. */
  lemma ReserveRefused(balances: Balances, token: Token, h: MatchHash, amount: U64)
    requires Solvent(balances)
    ensures var step, b := Reserved(balances, token, h, amount), Of(balances, token);
      && Refused(step.result, h, amount, h in b.pendingOut, Free(b))
      && (step.result.Err? ==> SameBalances(step.balances, balances))
  {
    FreeProjected(balances, token);
    UpdateOnly(balances, token, Of(balances, token));
    Refusal(balances, token, h, amount);
  }

  /** Else it succeeds, and just that much is gone from what is free of just that token. */
  lemma ReserveTaken(balances: Balances, token: Token, h: MatchHash, amount: U64)
    requires Solvent(balances) && h !in Of(balances, token).pendingOut && amount <= Free(Of(balances, token))
    ensures var step, b := Reserved(balances, token, h, amount), Of(balances, token);
      && step.result.Ok? && OnlyChanged(step.balances, balances, token)
      && Of(step.balances, token) == b.(pendingOut := b.pendingOut[h := amount])
      && Free(Of(step.balances, token)) == Free(b) - amount
  {
    FreeProjected(balances, token);
    FreeReserved(Of(balances, token), h, amount);
    UpdateOnly(balances, token, Of(balances, token).(pendingOut := Of(balances, token).pendingOut[h := amount]));
    Refusal(balances, token, h, amount);
  }

  /** An expected inflow is noted once and changes nothing that is available. */
  lemma TrackExact(balances: Balances, token: Token, h: MatchHash, amount: U64)
    ensures var step, b := Tracked(balances, token, h, amount), Of(balances, token);
      && (step.result == Err(DuplicatePending(h)) <==> h in b.pendingIn)
      && (step.result.Ok? <==> h !in b.pendingIn)
      && (step.result.Err? ==> SameBalances(step.balances, balances))
      && (step.result.Ok? ==>
            && h in Of(step.balances, token).pendingIn && Of(step.balances, token).pendingIn[h] == amount
            && Of(step.balances, token).pendingIn - {h} == b.pendingIn
            && Projected(Of(step.balances, token)) == Projected(b)
            && forall t :: t != token ==> Of(step.balances, t) == Of(balances, t))
  {
    var b := Of(balances, token);
    if h !in b.pendingIn { RemoveInserted(b.pendingIn, h, amount); }
  }

  /** A hash nobody waits for is an error, and releasing or confirming it changes nothing. */
  lemma UnknownHash(balances: Balances, h: MatchHash)
    requires forall token :: h !in Of(balances, token).pendingOut && h !in Of(balances, token).pendingIn
    ensures Released(balances, h).result == Err(PendingNotFound(h)) && SameBalances(Released(balances, h).balances, balances)
    ensures Confirmed(balances, h).result == Err(PendingNotFound(h)) && SameBalances(Confirmed(balances, h).balances, balances)
  {
    forall token ensures ReleaseIn(Of(balances, token), h) == Of(balances, token) { Untouched(Of(balances, token), h); }
    assert forall token :: token in balances ==> !PendingIn(Of(balances, token), h);
  }

  lemma EarmarkCases(balances: Balances, token: Token, amount: U64)
    ensures var step, b := Earmarked(balances, token, amount), Of(balances, token);
      && (amount > Projected(b) ==>
            step == Step(balances[token := b], Err(EarmarkExceedsProjected(amount, Projected(b)))))
      && (amount <= Projected(b) && b.earmarked + amount < TWO64 ==>
            step == Step(balances[token := b.(earmarked := b.earmarked + amount)], Ok(())))
  {
  }

  lemma EarmarkFits(balances: Balances, token: Token, amount: U64)
    requires Solvent(balances) && amount <= Free(Of(balances, token))
    ensures Of(balances, token).earmarked + amount < TWO64 && amount <= Projected(Of(balances, token))
  {
    FreeProjected(balances, token);
    SolventUpdate(balances, token, Of(balances, token));
  }

  /** An earmark beyond what is free is refused with the reason, and nothing changes. */
  lemma EarmarkRefused(balances: Balances, token: Token, amount: U64)
    requires Solvent(balances) && amount > Free(Of(balances, token))
    ensures var step := Earmarked(balances, token, amount);
      && step.result.Err? && step.result.error.EarmarkExceedsProjected?
      && step.result.error.wanted == amount && step.result.error.available == Free(Of(balances, token))
      && SameBalances(step.balances, balances)
  {
    FreeProjected(balances, token);
    UpdateOnly(balances, token, Of(balances, token));
    EarmarkCases(balances, token, amount);
  }

  lemma EarmarkTaken(balances: Balances, token: Token, amount: U64)
    requires Solvent(balances) && amount <= Free(Of(balances, token))
    ensures Of(balances, token).earmarked + amount < TWO64
    ensures var step, b := Earmarked(balances, token, amount), Of(balances, token);
      && step.result.Ok? && OnlyChanged(step.balances, balances, token)
      && Of(step.balances, token) == b.(earmarked := b.earmarked + amount)
      && Free(Of(step.balances, token)) == Free(b) - amount
  {
    EarmarkFits(balances, token, amount);
    UpdateOnly(balances, token, Of(balances, token).(earmarked := Of(balances, token).earmarked + amount));
    EarmarkCases(balances, token, amount);
  }

  lemma UnearmarkCases(balances: Balances, token: Token, amount: U64, executed: bool)
    requires token in balances && amount <= balances[token].earmarked && (executed ==> amount <= balances[token].confirmed)
    ensures var b := balances[token];
      Unearmarked(balances, token, amount, executed)
        == Step(balances[token := b.(earmarked := b.earmarked - amount,
                                     confirmed := if executed then b.confirmed - amount else b.confirmed)], Ok(()))
  {
  }

  /** Cancelling an earmark gives its amount back, executing it takes it from the confirmed balance instead. */
  lemma EarmarkRoundTrip(balances: Balances, token: Token, amount: U64)
    requires Solvent(balances) && amount <= Free(Of(balances, token))
    ensures var earmarked, b := Earmarked(balances, token, amount).balances, Of(balances, token);
      var cancelled, executed := Unearmarked(earmarked, token, amount, false), Unearmarked(earmarked, token, amount, true);
      && cancelled.result.Ok? && SameBalances(cancelled.balances, balances)
      && executed.result.Ok? && OnlyChanged(executed.balances, balances, token)
      && amount <= b.confirmed && Of(executed.balances, token) == b.(confirmed := b.confirmed - amount)
  {
    var b := Of(balances, token);
    EarmarkFits(balances, token, amount);
    EarmarkCases(balances, token, amount);
    var earmarked := balances[token := b.(earmarked := b.earmarked + amount)];
    UnearmarkCases(earmarked, token, amount, false);
    UnearmarkCases(earmarked, token, amount, true);
    assert earmarked[token := b] == balances[token := b];
    assert earmarked[token := b.(confirmed := b.confirmed - amount)] == balances[token := b.(confirmed := b.confirmed - amount)];
    UpdateOnly(balances, token, b);
    UpdateOnly(balances, token, b.(confirmed := b.confirmed - amount));
  }

  /** Nothing is released for a token that was never seen. */
  lemma UnseenToken(balances: Balances, token: Token, amount: U64, executed: bool)
    ensures Unearmarked(balances, token, amount, executed).result.Err? <==> token !in balances
    ensures token !in balances ==> Unearmarked(balances, token, amount, executed) == Step(balances, Err(UnknownToken(token)))
  {
  }
}
