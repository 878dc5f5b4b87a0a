/** The state of one batch: commits, reveals, and the single matching run at the Match transition. */
module BatchState {
  import opened Basics
  import opened Sorting
  import opened RunMatching
  import opened RunFacts
  import Clock

  type Phase = Clock.Phase

  datatype BatchStateError = WrongPhaseForCommit | WrongPhaseForReveal | NoMatchingCommit

  datatype CommitRecord = CommitRecord(batchId: nat, poolId: U64, hash: Hash, nftId: U64, signature: Bytes, isRevealed: bool)

  /** A commit as it is announced. */
  datatype Announcement = Announcement(batchId: nat, poolId: U64, hash: Hash, nftId: U64, signature: Bytes)

  /** A reveal as it is delivered. */
  datatype Delivery = Delivery(order: Order, signature: Bytes)

  datatype State = State(
    batchId: nat,
    poolId: U64,
    phase: Phase,
    commits: map<Hash, CommitRecord>,
    revealed: map<Hash, RevealedOrder>,
    matches: seq<Match>,
    matched: bool,
    markets: map<Symbol, MarketConfig>)

  // ----- map values in arbitrary order ---------------------------------------------

  function Along<K, V>(m: map<K, V>, keys: seq<K>): seq<V>
    requires forall k :: k in keys ==> k in m
  {
    seq(|keys|, i requires 0 <= i < |keys| => m[keys[i]])
  }

  ghost predicate Lists<K>(keys: seq<K>, ks: set<K>) {
    multiset(keys) == multiset(ks)
  }

  ghost function ValuesOf<K, V>(m: map<K, V>): seq<V> {
    var keys := Listing(m.Keys);
    ListingDistinct(keys, m.Keys);
    Along(m, keys)
  }

  /** `values().collect()`: the values in some order of their keys. */
  method CollectValues<K(==), V>(m: map<K, V>) returns (values: seq<V>, ghost keys: seq<K>)
    ensures Lists(keys, m.Keys) && (forall k :: k in keys ==> k in m) && values == Along(m, keys)
  {
    var left := m.Keys;
    values, keys := [], [];
    while left != {}
      invariant left <= m.Keys && Lists(keys, m.Keys - left)
      invariant (forall k :: k in keys ==> k in m) && values == Along(m, keys)
      decreases left
    {
      var k :| k in left;
      assert m.Keys - (left - {k}) == (m.Keys - left) + {k};
      left, values, keys := left - {k}, values + [m[k]], keys + [k];
    }
    assert m.Keys - left == m.Keys;
  }

  lemma AlongWithout<K, V>(m: map<K, V>, keys: seq<K>, i: nat)
    requires (forall k :: k in keys ==> k in m) && i < |keys|
    ensures var rest := keys[..i] + keys[i + 1..];
      && multiset(keys) == multiset(rest) + multiset{keys[i]}
      && (forall k :: k in rest ==> k in m)
      && multiset(Along(m, keys)) == multiset(Along(m, rest)) + multiset{m[keys[i]]}
  {
    var rest := keys[..i] + keys[i + 1..];
    assert keys == keys[..i] + [keys[i]] + keys[i + 1..];
    var values, others := Along(m, keys), Along(m, rest);
    assert values == values[..i] + [values[i]] + values[i + 1..];
    assert others == values[..i] + values[i + 1..];
  }

  lemma {:induction false} AlongPermuted<K, V>(m: map<K, V>, a: seq<K>, b: seq<K>)
    requires multiset(a) == multiset(b)
    requires (forall k :: k in a ==> k in m) && (forall k :: k in b ==> k in m)
    ensures multiset(Along(m, a)) == multiset(Along(m, b))
    decreases |a|
  {
    if a == [] {
      assert |multiset(b)| == 0;
    } else {
      assert a[0] in multiset(b);
      var i :| 0 <= i < |b| && b[i] == a[0];
      var resta, restb := a[..0] + a[1..], b[..i] + b[i + 1..];
      AlongWithout(m, a, 0);
      AlongWithout(m, b, i);
      assert multiset(resta) == multiset(a) - multiset{a[0]};
      assert multiset(restb) == multiset(b) - multiset{a[0]};
      AlongPermuted(m, resta, restb);
    }
  }

  // ----- what a batch computes -------------------------------------------------------

  ghost predicate KeyedByHash(revealed: map<Hash, RevealedOrder>) {
    forall h :: h in revealed ==> revealed[h].orderHash == h
  }

  ghost predicate KeyedBySymbol(markets: map<Symbol, MarketConfig>) {
    forall s :: s in markets ==> markets[s].symbol == s
  }

  ghost function InputOf(s: State): MatchingInput {
    MatchingInput(s.batchId, s.poolId, ValuesOf(s.revealed), ValuesOf(s.markets))
  }

  lemma ConfigsDistinct(markets: map<Symbol, MarketConfig>, symbols: seq<Symbol>)
    requires KeyedBySymbol(markets) && Lists(symbols, markets.Keys) && (forall k :: k in symbols ==> k in markets)
    ensures DistinctSymbols(Along(markets, symbols))
  {
    ListingDistinct(symbols, markets.Keys);
    forall i, j | 0 <= i < j < |symbols| ensures Along(markets, symbols)[i].symbol != Along(markets, symbols)[j].symbol {
      assert symbols[i] in symbols && symbols[j] in symbols;
    }
  }

  lemma RevealsIdentified(revealed: map<Hash, RevealedOrder>, hashes: seq<Hash>)
    requires KeyedByHash(revealed) && (forall k :: k in hashes ==> k in revealed)
    ensures HashesIdentify(Along(revealed, hashes))
  {
    forall i | 0 <= i < |hashes| ensures Along(revealed, hashes)[i].orderHash == hashes[i] {
      assert hashes[i] in hashes;
    }
  }

  /** Whatever order the two maps are read in, the run is the same. */
  lemma AnyReadingOrder(s: State, hashes: seq<Hash>, symbols: seq<Symbol>)
    requires KeyedByHash(s.revealed) && KeyedBySymbol(s.markets)
    requires Lists(hashes, s.revealed.Keys) && (forall k :: k in hashes ==> k in s.revealed)
    requires Lists(symbols, s.markets.Keys) && (forall k :: k in symbols ==> k in s.markets)
    ensures Matches(MatchingInput(s.batchId, s.poolId, Along(s.revealed, hashes), Along(s.markets, symbols))) == Matches(InputOf(s))
  {
    var hashes', symbols' := Listing(s.revealed.Keys), Listing(s.markets.Keys);
    ListingDistinct(hashes', s.revealed.Keys);
    ListingDistinct(symbols', s.markets.Keys);
    AlongPermuted(s.revealed, hashes, hashes');
    AlongPermuted(s.markets, symbols, symbols');
    ConfigsDistinct(s.markets, symbols);
    ConfigsDistinct(s.markets, symbols');
    RevealsIdentified(s.revealed, hashes);
    MarketOrderIndependence(
      MatchingInput(s.batchId, s.poolId, Along(s.revealed, hashes), Along(s.markets, symbols)), InputOf(s));
  }

  // ----- transitions --------------------------------------------------------------------

  datatype Op = AddCommit(announced: Announcement) | AddReveal(delivery: Delivery) | TransitionTo(phase: Phase)

  /** A commit is recorded as not yet revealed. */
  function Recorded(a: Announcement): CommitRecord {
    CommitRecord(a.batchId, a.poolId, a.hash, a.nftId, a.signature, false)
  }

  function RevealedAs(d: Delivery, h: Hash): RevealedOrder {
    RevealedOrder(d.order, d.signature, h)
  }

  ghost function Do(s: State, op: Op, hash: Order -> Hash): State {
    match op
    case AddCommit(a) =>
      if s.phase != Clock.Commit then s else s.(commits := s.commits[a.hash := Recorded(a)])
    case AddReveal(d) =>
      var h := hash(d.order);
      if s.phase != Clock.Reveal || h !in s.commits then s
      else s.(commits := s.commits[h := s.commits[h].(isRevealed := true)], revealed := s.revealed[h := RevealedAs(d, h)])
    case TransitionTo(phase) =>
      var s' := s.(phase := phase);
      if phase == Clock.Phase.Match && !s.matched then Matched(s') else s'
  }

  ghost function Matched(s: State): State {
    s.(matches := Matches(InputOf(s)), matched := true)
  }

  ghost function Run(s: State, ops: seq<Op>, hash: Order -> Hash): State {
    if ops == [] then s else Do(Run(s, ops[..|ops| - 1], hash), ops[|ops| - 1], hash)
  }

  class BatchState {
    var batchId: nat
    var poolId: U64
    var phase: Phase
    var commits: map<Hash, CommitRecord>
    var revealed: map<Hash, RevealedOrder>
    var matches: seq<Match>
    var matched: bool
    var markets: map<Symbol, MarketConfig>
    const hash: Order -> Hash

    ghost predicate Valid()
      reads this
    {
      KeyedByHash(revealed) && KeyedBySymbol(markets) && revealed.Keys <= commits.Keys
    }

    ghost function Now(): State
      reads this
    {
      State(batchId, poolId, phase, commits, revealed, matches, matched, markets)
    }

    constructor (batchId: nat, poolId: U64, phase: Phase, configs: seq<MarketConfig>, hash: Order -> Hash)
      ensures Valid() && this.hash == hash
      ensures Now() == State(batchId, poolId, phase, map[], map[], [], false, ConfigMap(configs))
    {
      this.batchId, this.poolId, this.phase, this.hash := batchId, poolId, phase, hash;
      commits, revealed, matches, matched := map[], map[], [], false;
      markets := ConfigMap(configs);
      new;
      ConfigMapKeyed(configs);
    }

    method AddCommit(batchId: nat, poolId: U64, hash: Hash, nftId: U64, signature: Bytes) returns (r: Result<(), BatchStateError>)
      requires Valid()
      modifies this
      ensures Valid() && Now() == Do(old(Now()), Op.AddCommit(Announcement(batchId, poolId, hash, nftId, signature)), this.hash)
      ensures r == if old(phase) != Clock.Commit then Err(WrongPhaseForCommit) else Ok(())
    {
      if phase != Clock.Commit { return Err(WrongPhaseForCommit); }
      commits := commits[hash := CommitRecord(batchId, poolId, hash, nftId, signature, false)];
      return Ok(());
    }

    method AddReveal(d: Delivery) returns (r: Result<(), BatchStateError>)
      requires Valid()
      modifies this
      ensures Valid() && Now() == Do(old(Now()), Op.AddReveal(d), hash)
      ensures r == if old(phase) != Clock.Reveal then Err(WrongPhaseForReveal)
                   else if hash(d.order) !in old(commits) then Err(NoMatchingCommit) else Ok(())
    {
      if phase != Clock.Reveal { return Err(WrongPhaseForReveal); }
      var h := hash(d.order);
      if h !in commits { return Err(NoMatchingCommit); }
      commits := commits[h := commits[h].(isRevealed := true)];
      revealed := revealed[h := RevealedOrder(d.order, d.signature, h)];
      return Ok(());
    }

    method TransitionTo(newPhase: Phase)
      requires Valid()
      modifies this
      ensures Valid() && Now() == Do(old(Now()), Op.TransitionTo(newPhase), hash)
    {
      phase := newPhase;
      if newPhase == Clock.Phase.Match && !matched {
        RunMatchingOnce();
      }
    }

    method RunMatchingOnce()
      requires Valid() && !matched
      modifies this`matches, this`matched
      ensures Valid() && Now() == Matched(old(Now()))
    {
      ghost var before := Now();
      var rs, hashes := CollectValues(revealed);
      var ms, symbols := CollectValues(markets);
      AnyReadingOrder(before, hashes, symbols);
      matches := RunMatching.RunMatching(MatchingInput(batchId, poolId, rs, ms));
      matched := true;
    }

    method ResetForNewBatch(batchId: nat, poolId: U64, phase: Phase, configs: seq<MarketConfig>)
      modifies this
      ensures Valid() && Now() == State(batchId, poolId, phase, map[], map[], [], false, ConfigMap(configs))
    {
      this.batchId, this.poolId, this.phase := batchId, poolId, phase;
      commits, revealed, matches, matched := map[], map[], [], false;
      markets := ConfigMap(configs);
      ConfigMapKeyed(configs);
    }
  }

  function ConfigMap(configs: seq<MarketConfig>): map<Symbol, MarketConfig> {
    if configs == [] then map[]
    else ConfigMap(configs[..|configs| - 1])[configs[|configs| - 1].symbol := configs[|configs| - 1]]
  }

  lemma {:induction false} ConfigMapKeyed(configs: seq<MarketConfig>)
    ensures KeyedBySymbol(ConfigMap(configs))
  {
    if configs != [] { ConfigMapKeyed(configs[..|configs| - 1]); }
  }

  // ----- delivery order -------------------------------------------------------------------

  ghost function Commits(s: State, records: seq<Announcement>, hash: Order -> Hash): State {
    if records == [] then s
    else Do(Commits(s, records[..|records| - 1], hash), Op.AddCommit(records[|records| - 1]), hash)
  }

  ghost function Reveals(s: State, ds: seq<Delivery>, hash: Order -> Hash): State {
    if ds == [] then s
    else Do(Reveals(s, ds[..|ds| - 1], hash), Op.AddReveal(ds[|ds| - 1]), hash)
  }

  /** A whole batch: commits, then reveals, then the Match transition. */
  ghost function Batch(s: State, records: seq<Announcement>, ds: seq<Delivery>, hash: Order -> Hash): State {
    Do(Reveals(Do(Commits(s, records, hash), Op.TransitionTo(Clock.Reveal), hash), ds, hash),
       Op.TransitionTo(Clock.Phase.Match), hash)
  }

  function HashesOf(records: seq<Announcement>): set<Hash> {
    set k | 0 <= k < |records| :: records[k].hash
  }

  ghost predicate SameDeliveries(a: seq<Delivery>, b: seq<Delivery>) {
    forall d :: d in a <==> d in b
  }

  /** One delivery per order hash: orders do not collide and carry one signature. */
  ghost predicate OneSignature(ds: seq<Delivery>, hash: Order -> Hash) {
    forall i, j :: 0 <= i < |ds| && 0 <= j < |ds| && hash(ds[i].order) == hash(ds[j].order) ==> ds[i] == ds[j]
  }

  lemma {:induction false} CommitsKeys(s: State, records: seq<Announcement>, hash: Order -> Hash)
    requires s.phase == Clock.Commit
    ensures var t := Commits(s, records, hash);
      t.commits.Keys == s.commits.Keys + HashesOf(records) && t == s.(commits := t.commits)
  {
    if records != [] {
      var front, last := records[..|records| - 1], records[|records| - 1];
      CommitsKeys(s, front, hash);
      assert HashesOf(records) == HashesOf(front) + {last.hash} by {
        assert records[|records| - 1].hash in HashesOf(records);
        forall k | 0 <= k < |front| ensures front[k].hash in HashesOf(records) {
          assert front[k] == records[k];
        }
        forall k | 0 <= k < |records| ensures records[k].hash in HashesOf(front) + {last.hash} {
          if k < |front| { assert front[k] == records[k]; }
        }
      }
    }
  }

  ghost predicate Delivered(ds: seq<Delivery>, h: Hash, hash: Order -> Hash) {
    exists k :: 0 <= k < |ds| && hash(ds[k].order) == h
  }

  /** Exactly the committed deliveries are held, each under its hash. */
  ghost predicate Holds(held: map<Hash, RevealedOrder>, ds: seq<Delivery>, committed: set<Hash>, hash: Order -> Hash) {
    && (forall h :: h in held <==> h in committed && Delivered(ds, h, hash))
    && (forall k :: 0 <= k < |ds| && hash(ds[k].order) in held ==>
          held[hash(ds[k].order)] == RevealedAs(ds[k], hash(ds[k].order)))
  }

  lemma DeliveredSnoc(ds: seq<Delivery>, d: Delivery, h: Hash, hash: Order -> Hash)
    ensures Delivered(ds + [d], h, hash) <==> Delivered(ds, h, hash) || hash(d.order) == h
  {
    if Delivered(ds, h, hash) {
      var k :| 0 <= k < |ds| && hash(ds[k].order) == h;
      assert (ds + [d])[k] == ds[k];
    }
    assert (ds + [d])[|ds|] == d;
  }

  lemma HoldsSnoc(held: map<Hash, RevealedOrder>, ds: seq<Delivery>, d: Delivery, committed: set<Hash>, hash: Order -> Hash)
    requires Holds(held, ds, committed, hash) && OneSignature(ds + [d], hash)
    ensures var h := hash(d.order);
      Holds(if h in committed then held[h := RevealedAs(d, h)] else held, ds + [d], committed, hash)
  {
    var n := hash(d.order);
    var held' := if n in committed then held[n := RevealedAs(d, n)] else held;
    var all := ds + [d];
    forall h ensures h in held' <==> h in committed && Delivered(all, h, hash) {
      DeliveredSnoc(ds, d, h, hash);
    }
    assert all[|ds|] == d;
    forall k | 0 <= k < |all| && hash(all[k].order) in held'
      ensures held'[hash(all[k].order)] == RevealedAs(all[k], hash(all[k].order))
    {
      if k < |ds| { assert all[k] == ds[k]; }
    }
  }

  lemma {:induction false} RevealsHold(s: State, ds: seq<Delivery>, hash: Order -> Hash)
    requires s.phase == Clock.Reveal && s.revealed == map[] && OneSignature(ds, hash)
    ensures var t := Reveals(s, ds, hash);
      && t.commits.Keys == s.commits.Keys
      && t == s.(commits := t.commits, revealed := t.revealed)
      && Holds(t.revealed, ds, s.commits.Keys, hash)
  {
    if ds != [] {
      var front, last := ds[..|ds| - 1], ds[|ds| - 1];
      assert ds == front + [last];
      assert forall k :: 0 <= k < |front| ==> front[k] == ds[k];
      RevealsHold(s, front, hash);
      HoldsSnoc(Reveals(s, front, hash).revealed, front, last, s.commits.Keys, hash);
    }
  }

  lemma DeliveredBoth(a: seq<Delivery>, b: seq<Delivery>, h: Hash, hash: Order -> Hash)
    requires SameDeliveries(a, b)
    ensures Delivered(a, h, hash) ==> exists k, m :: 0 <= k < |a| && 0 <= m < |b| && a[k] == b[m] && hash(a[k].order) == h
    ensures Delivered(a, h, hash) ==> Delivered(b, h, hash)
  {
    if Delivered(a, h, hash) {
      var k :| 0 <= k < |a| && hash(a[k].order) == h;
      assert a[k] in b;
      var m :| 0 <= m < |b| && b[m] == a[k];
    }
  }

  lemma SameHoldings(a: seq<Delivery>, b: seq<Delivery>, ta: map<Hash, RevealedOrder>, tb: map<Hash, RevealedOrder>,
                     committed: set<Hash>, hash: Order -> Hash)
    requires SameDeliveries(a, b) && Holds(ta, a, committed, hash) && Holds(tb, b, committed, hash)
    ensures ta == tb
  {
    forall h ensures h in ta <==> h in tb {
      DeliveredBoth(a, b, h, hash);
      DeliveredBoth(b, a, h, hash);
    }
    forall h | h in ta ensures ta[h] == tb[h] {
      DeliveredBoth(a, b, h, hash);
      var k, m :| 0 <= k < |a| && 0 <= m < |b| && a[k] == b[m] && hash(a[k].order) == h;
    }
  }

  /** Two nodes that receive the same commits and the same reveals, in any order and with any repetition,
      hold the same reveals and compute the same matches. */
  lemma DeliveryOrderIndependence(
    s: State, recordsA: seq<Announcement>, recordsB: seq<Announcement>, a: seq<Delivery>, b: seq<Delivery>, hash: Order -> Hash)
    requires s.phase == Clock.Commit && s.revealed == map[] && !s.matched
    requires HashesOf(recordsA) == HashesOf(recordsB)
    requires SameDeliveries(a, b) && OneSignature(a, hash) && OneSignature(b, hash)
    ensures Batch(s, recordsA, a, hash).revealed == Batch(s, recordsB, b, hash).revealed
    ensures Batch(s, recordsA, a, hash).matches == Batch(s, recordsB, b, hash).matches
  {
    CommitsKeys(s, recordsA, hash);
    CommitsKeys(s, recordsB, hash);
    var ca := Do(Commits(s, recordsA, hash), Op.TransitionTo(Clock.Reveal), hash);
    var cb := Do(Commits(s, recordsB, hash), Op.TransitionTo(Clock.Reveal), hash);
    RevealsHold(ca, a, hash);
    RevealsHold(cb, b, hash);
    var ra, rb := Reveals(ca, a, hash), Reveals(cb, b, hash);
    assert ca.commits.Keys == cb.commits.Keys;
    SameHoldings(a, b, ra.revealed, rb.revealed, ca.commits.Keys, hash);
  }

  // ----- records and refusals -------------------------------------------------------------

  /** Commits outside the Commit phase, reveals outside the Reveal phase and reveals without a commit change nothing. */
  lemma RefusedChangesNothing(s: State, op: Op, hash: Order -> Hash)
    ensures op.AddCommit? && s.phase != Clock.Commit ==> Do(s, op, hash) == s
    ensures op.AddReveal? && (s.phase != Clock.Reveal || hash(op.delivery.order) !in s.commits) ==> Do(s, op, hash) == s
  {
  }

  /** The record says what some announcement of its hash said. */
  ghost predicate Announced(r: CommitRecord, announced: seq<Announcement>) {
    exists k :: 0 <= k < |announced| && announced[k] == Announcement(r.batchId, r.poolId, r.hash, r.nftId, r.signature)
  }

  /** Every record is an announcement of its hash, and marked revealed just when a reveal is held. */
  ghost predicate RecordsMatch(s: State, announced: seq<Announcement>) {
    forall h :: h in s.commits ==>
      s.commits[h].hash == h && (s.commits[h].isRevealed <==> h in s.revealed) && Announced(s.commits[h], announced)
  }

  lemma AnnouncedSnoc(r: CommitRecord, announced: seq<Announcement>, a: Announcement)
    ensures Announced(r, announced) ==> Announced(r, announced + [a])
    ensures Announced(Recorded(a), announced + [a])
  {
    if k :| 0 <= k < |announced| && announced[k] == Announcement(r.batchId, r.poolId, r.hash, r.nftId, r.signature) {
      assert (announced + [a])[k] == announced[k];
    }
    assert (announced + [a])[|announced|] == a;
  }

  lemma {:induction false} CommitsRecorded(s: State, announced: seq<Announcement>, hash: Order -> Hash)
    requires s.phase == Clock.Commit && s.commits == map[] && s.revealed == map[]
    ensures RecordsMatch(Commits(s, announced, hash), announced)
  {
    if announced != [] {
      var front, last := announced[..|announced| - 1], announced[|announced| - 1];
      CommitsRecorded(s, front, hash);
      CommitsKeys(s, front, hash);
      var t, u := Commits(s, front, hash), Commits(s, announced, hash);
      SplitLast(announced);
      forall h | h in u.commits ensures Announced(u.commits[h], announced) {
        AnnouncedSnoc(u.commits[h], front, last);
      }
    }
  }

  lemma {:induction false} RevealsRecorded(s: State, announced: seq<Announcement>, ds: seq<Delivery>, hash: Order -> Hash)
    requires RecordsMatch(s, announced)
    ensures RecordsMatch(Reveals(s, ds, hash), announced)
  {
    if ds != [] {
      RevealsRecorded(s, announced, ds[..|ds| - 1], hash);
      RevealRecorded(Reveals(s, ds[..|ds| - 1], hash), announced, ds[|ds| - 1], hash);
    }
  }

  lemma RevealRecorded(s: State, announced: seq<Announcement>, d: Delivery, hash: Order -> Hash)
    requires RecordsMatch(s, announced)
    ensures RecordsMatch(Do(s, Op.AddReveal(d), hash), announced)
  {
    var t := Do(s, Op.AddReveal(d), hash);
    forall h | h in t.commits ensures h in s.commits && Announced(t.commits[h], announced) {
      assert Announced(s.commits[h], announced);
    }
  }

  /** After a whole batch every record is as announced, and marked revealed exactly when the order was delivered. */
  lemma BatchRecords(s: State, announced: seq<Announcement>, ds: seq<Delivery>, hash: Order -> Hash)
    requires s.phase == Clock.Commit && s.commits == map[] && s.revealed == map[] && !s.matched && OneSignature(ds, hash)
    ensures var t := Batch(s, announced, ds, hash);
      && RecordsMatch(t, announced)
      && forall h :: h in t.commits ==> (t.commits[h].isRevealed <==> Delivered(ds, h, hash))
  {
    CommitsRecorded(s, announced, hash);
    CommitsKeys(s, announced, hash);
    var c := Do(Commits(s, announced, hash), Op.TransitionTo(Clock.Reveal), hash);
    RevealsRecorded(c, announced, ds, hash);
    RevealsHold(c, ds, hash);
    var u := Reveals(c, ds, hash);
    assert forall h :: h in u.revealed <==> h in c.commits.Keys && Delivered(ds, h, hash);
  }

  /** The matches of a batch carry its id and pool and are between orders that were delivered and committed. */
  lemma BatchMatches(s: State, k: nat)
    requires KeyedByHash(s.revealed) && KeyedBySymbol(s.markets) && k < |Matched(s).matches|
    ensures var m := Matched(s).matches[k];
      && m.batchId == s.batchId && m.poolId == s.poolId && m.symbol in s.markets && s.markets[m.symbol].minQuantity <= m.fillQuantity
      && m.buyer.orderHash in s.revealed && s.revealed[m.buyer.orderHash] == m.buyer
      && m.seller.orderHash in s.revealed && s.revealed[m.seller.orderHash] == m.seller
  {
    MatchesSound(InputOf(s));
    var m := Matched(s).matches[k];
    assert SoundMatch(InputOf(s), m);
    ValueHeld(s.revealed, m.buyer);
    ValueHeld(s.revealed, m.seller);
    var keys := Listing(s.markets.Keys);
    ListingDistinct(keys, s.markets.Keys);
    ConfigsDistinct(s.markets, keys);
    var q := MarketMap(InputOf(s).markets)[m.symbol];
    MarketMapLookup(InputOf(s).markets, m.symbol, q);
    assert MarketConfig(m.symbol, q) in InputOf(s).markets;
    var i :| 0 <= i < |keys| && Along(s.markets, keys)[i] == MarketConfig(m.symbol, q);
    assert keys[i] in keys;
  }

  lemma ValueHeld(held: map<Hash, RevealedOrder>, r: RevealedOrder)
    requires KeyedByHash(held) && r in ValuesOf(held)
    ensures r.orderHash in held && held[r.orderHash] == r
  {
    var keys := Listing(held.Keys);
    ListingDistinct(keys, held.Keys);
    var i :| 0 <= i < |keys| && Along(held, keys)[i] == r;
    assert keys[i] in keys;
  }

  /** The market table holds the configuration listed last for each symbol. */
  lemma {:induction false} ConfigMapLast(configs: seq<MarketConfig>, k: nat)
    requires k < |configs| && forall l :: k < l < |configs| ==> configs[l].symbol != configs[k].symbol
    ensures configs[k].symbol in ConfigMap(configs) && ConfigMap(configs)[configs[k].symbol] == configs[k]
  {
    if k < |configs| - 1 {
      assert configs[..|configs| - 1][k] == configs[k];
      ConfigMapLast(configs[..|configs| - 1], k);
    }
  }

  /** Once matched, no operation short of a reset changes the matches. */
  lemma {:induction false} MatchesFrozen(s: State, ops: seq<Op>, hash: Order -> Hash)
    requires s.matched
    ensures Run(s, ops, hash).matched && Run(s, ops, hash).matches == s.matches
  {
    if ops != [] { MatchesFrozen(s, ops[..|ops| - 1], hash); }
  }

  lemma MatchedByEntering(s: State, op: Op, hash: Order -> Hash)
    ensures var t := Do(s, op, hash);
      && (t.matched <==> s.matched || op == Op.TransitionTo(Clock.Phase.Match))
      && (!t.matched ==> t.matches == s.matches)
  {
  }

  /** Before that there are none: matches exist only after a Match transition. */
  lemma {:induction false} NoMatchesBefore(s: State, ops: seq<Op>, hash: Order -> Hash)
    requires !s.matched && s.matches == []
    ensures var t := Run(s, ops, hash);
      && (t.matched <==> Op.TransitionTo(Clock.Phase.Match) in ops)
      && (!t.matched ==> t.matches == [])
  {
    if ops != [] {
      NoMatchesBefore(s, ops[..|ops| - 1], hash);
      MatchedByEntering(Run(s, ops[..|ops| - 1], hash), ops[|ops| - 1], hash);
      SplitLast(ops);
    }
  }
}
