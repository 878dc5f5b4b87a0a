/** The per-batch gossip validator: commit quota with evidence, pending commits and their reveals. */
module QuotaGossip {
  import opened Basics
  import opened Sorting

  type Key = nat

  datatype CommitRejectReason =
    WrongBatch | WrongPool | BadPoolAssignment | BlockedNft | UnregisteredNft | InvalidSignature | DuplicateHash | OverQuota

  datatype RevealRejectReason = StaleBatch | NoMatchingCommit | NftIdMismatch | BadSignature

  datatype CommitResult = CommitAccepted | CommitRejected(reason: CommitRejectReason)

  datatype RevealResult = RevealAccepted | RevealRejected(why: RevealRejectReason) | DuplicateIgnored

  datatype Evidence = Evidence(accusedNftId: U64, batchId: nat, poolId: U64, hashes: seq<Hash>, signatures: seq<Bytes>)

  datatype CompleteRejectReason = StaleComplete | WrongAssignment | UnverifiedComplete | DuplicateSender

  datatype CompleteResult = CompleteAccepted | CompleteRejected(because: CompleteRejectReason)

  datatype CompleteMessage = CompleteMessage(
    batchId: nat, poolId: U64, symbol: Symbol, price: U64, volume: U64, matchCount: U64, sender: U64, signature: Bytes)

  datatype CommitRecord = CommitRecord(batchId: nat, poolId: U64, hash: Hash, nftId: U64, signature: Bytes, isRevealed: bool)

  datatype ValidationContext = ValidationContext(currentBatchId: nat, myPoolId: U64, numPools: nat, commitsPerBatch: nat)

  datatype CommitMessage = CommitMessage(batchId: nat, poolId: U64, hash: Hash, nftId: U64, signature: Bytes)

  datatype RevealMessage = RevealMessage(batchId: nat, order: Order, signature: Bytes)

  /** Everything the validator asks its surroundings. */
  datatype World = World(
    pubkey: U64 -> Option<Key>,
    registered: U64 -> bool,
    blocked: U64 -> bool,
    assign: (U64, nat, nat) -> U64,
    commitText: (nat, U64, Hash) -> Bytes,
    completeText: CompleteMessage -> Bytes,
    orderBytes: Order -> Bytes,
    orderHash: Order -> Hash,
    verify: (Key, Bytes, Bytes) -> bool)

  // ----- quota -------------------------------------------------------------------

  datatype Quota = Quota(counts: map<U64, nat>, evidence: map<U64, Evidence>, limit: nat)

  function CountOf(q: Quota, nftId: U64): nat {
    if nftId in q.counts then q.counts[nftId] else 0
  }

  function EvidenceLength(q: Quota, nftId: U64): nat {
    if nftId in q.evidence then |q.evidence[nftId].hashes| else 0
  }

  /** Evidence is kept of every commit, the counter stops at the limit. */
  function Record(q: Quota, m: CommitMessage): Quota {
    var e := if m.nftId in q.evidence then q.evidence[m.nftId] else Evidence(m.nftId, m.batchId, m.poolId, [], []);
    var count := CountOf(q, m.nftId);
    Quota(q.counts[m.nftId := if count >= q.limit then count else count + 1],
          q.evidence[m.nftId := e.(hashes := e.hashes + [m.hash], signatures := e.signatures + [m.signature])],
          q.limit)
  }

  class CommitQuotaTracker {
    var counts: map<U64, nat>
    var evidence: map<U64, Evidence>
    const limit: nat

    function Now(): Quota
      reads this
    {
      Quota(counts, evidence, limit)
    }

    constructor (commitsPerBatch: nat)
      ensures Now() == Quota(map[], map[], commitsPerBatch)
    {
      counts, evidence, limit := map[], map[], commitsPerBatch;
    }

    method CheckAndRecord(m: CommitMessage) returns (ok: bool)
      modifies this
      ensures Now() == Record(old(Now()), m) && ok == (CountOf(old(Now()), m.nftId) < limit)
    {
      var count := if m.nftId in counts then counts[m.nftId] else 0;
      counts := counts[m.nftId := count];
      var e := if m.nftId in evidence then evidence[m.nftId] else Evidence(m.nftId, m.batchId, m.poolId, [], []);
      evidence := evidence[m.nftId := e.(hashes := e.hashes + [m.hash], signatures := e.signatures + [m.signature])];
      if count >= limit { return false; }
      counts := counts[m.nftId := count + 1];
      return true;
    }

    /** The evidence of every NFT with more commits than the limit. */
    method GetReportableEvidence() returns (reportable: map<U64, Evidence>)
      ensures forall n :: n in reportable <==> EvidenceLength(Now(), n) > limit
      ensures forall n :: n in reportable ==> n in evidence && reportable[n] == evidence[n]
    {
      reportable := map n | n in evidence && |evidence[n].hashes| > limit :: evidence[n];
    }

    method Reset()
      modifies this
      ensures Now() == Quota(map[], map[], limit)
    {
      counts, evidence := map[], map[];
    }
  }

  // ----- the validator --------------------------------------------------------------

  datatype State = State(context: ValidationContext, pending: map<Hash, CommitRecord>, quota: Quota, seen: set<Hash>)

  /** Why a commit is refused before the quota is looked at. */
  function Objection(s: State, m: CommitMessage, w: World): Option<CommitRejectReason> {
    if m.batchId != s.context.currentBatchId then Some(WrongBatch)
    else if m.poolId != s.context.myPoolId then Some(WrongPool)
    else if w.assign(m.nftId, m.batchId, s.context.numPools) != m.poolId then Some(BadPoolAssignment)
    else if w.blocked(m.nftId) then Some(BlockedNft)
    else if !w.registered(m.nftId) then Some(UnregisteredNft)
    else
      match w.pubkey(m.nftId)
      case None => Some(InvalidSignature)
      case Some(key) =>
        if w.verify(key, w.commitText(m.batchId, m.poolId, m.hash), m.signature) then None else Some(InvalidSignature)
  }

  function RecordOf(m: CommitMessage): CommitRecord {
    CommitRecord(m.batchId, m.poolId, m.hash, m.nftId, m.signature, false)
  }

  function DoCommit(s: State, m: CommitMessage, w: World): (State, CommitResult) {
    match Objection(s, m, w)
    case Some(reason) => (s, CommitRejected(reason))
    case None =>
      var s' := s.(quota := Record(s.quota, m));
      if CountOf(s.quota, m.nftId) >= s.quota.limit then (s', CommitRejected(OverQuota))
      else if m.hash in s.pending then (s', CommitRejected(DuplicateHash))
      else (s'.(pending := s.pending[m.hash := RecordOf(m)]), CommitAccepted)
  }

  function DoReveal(s: State, m: RevealMessage, w: World): (State, RevealResult) {
    var h := w.orderHash(m.order);
    if m.batchId != s.context.currentBatchId then (s, RevealRejected(StaleBatch))
    else if h !in s.pending then (s, RevealRejected(NoMatchingCommit))
    else if h in s.seen then (s, DuplicateIgnored)
    else if m.order.nftId != s.pending[h].nftId then (s, RevealRejected(NftIdMismatch))
    else
      match w.pubkey(m.order.nftId)
      case None => (s, RevealRejected(BadSignature))
      case Some(key) =>
        if !w.verify(key, w.orderBytes(m.order), m.signature) then (s, RevealRejected(BadSignature))
        else (s.(seen := s.seen + {h}, pending := s.pending[h := s.pending[h].(isRevealed := true)]), RevealAccepted)
  }

  /** Who has reported the completion of which market. */
  type Reports = set<(U64, Symbol)>

  function DoComplete(seen: Reports, context: ValidationContext, m: CompleteMessage, w: World): (Reports, CompleteResult) {
    if m.batchId != context.currentBatchId then (seen, CompleteRejected(StaleComplete))
    else if w.assign(m.sender, m.batchId, context.numPools) != m.poolId then (seen, CompleteRejected(WrongAssignment))
    else
      match w.pubkey(m.sender)
      case None => (seen, CompleteRejected(UnverifiedComplete))
      case Some(key) =>
        if !w.verify(key, w.completeText(m), m.signature) then (seen, CompleteRejected(UnverifiedComplete))
        else if (m.sender, m.symbol) in seen then (seen, CompleteRejected(DuplicateSender))
        else (seen + {(m.sender, m.symbol)}, CompleteAccepted)
  }

  class GossipValidator {
    var context: ValidationContext
    var batchCompleteSeen: Reports
    var pendingCommits: map<Hash, CommitRecord>
    const quotaTracker: CommitQuotaTracker
    var revealedHashes: set<Hash>
    const world: World

    function Now(): State
      reads this, quotaTracker
    {
      State(context, pendingCommits, quotaTracker.Now(), revealedHashes)
    }

    constructor (context: ValidationContext, world: World)
      ensures Now() == Start(context, context.commitsPerBatch) && this.world == world && fresh(quotaTracker)
      ensures batchCompleteSeen == {}
    {
      this.context, this.world := context, world;
      pendingCommits, revealedHashes, batchCompleteSeen := map[], {}, {};
      quotaTracker := new CommitQuotaTracker(context.commitsPerBatch);
    }

    method ValidateCommit(m: CommitMessage) returns (r: CommitResult)
      modifies this`pendingCommits, quotaTracker
      ensures (Now(), r) == DoCommit(old(Now()), m, world)
    {
      if m.batchId != context.currentBatchId { return CommitRejected(WrongBatch); }
      if m.poolId != context.myPoolId { return CommitRejected(WrongPool); }
      if world.assign(m.nftId, m.batchId, context.numPools) != m.poolId { return CommitRejected(BadPoolAssignment); }
      if world.blocked(m.nftId) { return CommitRejected(BlockedNft); }
      if !world.registered(m.nftId) { return CommitRejected(UnregisteredNft); }
      match world.pubkey(m.nftId) {
        case None => return CommitRejected(InvalidSignature);
        case Some(key) =>
          if !world.verify(key, world.commitText(m.batchId, m.poolId, m.hash), m.signature) {
            return CommitRejected(InvalidSignature);
          }
      }
      var within := quotaTracker.CheckAndRecord(m);
      if !within { return CommitRejected(OverQuota); }
      if m.hash in pendingCommits { return CommitRejected(DuplicateHash); }
      pendingCommits := pendingCommits[m.hash := RecordOf(m)];
      return CommitAccepted;
    }

    method ValidateReveal(m: RevealMessage) returns (r: RevealResult)
      modifies this`pendingCommits, this`revealedHashes
      ensures (Now(), r) == DoReveal(old(Now()), m, world)
    {
      if m.batchId != context.currentBatchId { return RevealRejected(StaleBatch); }
      var h := world.orderHash(m.order);
      if h !in pendingCommits { return RevealRejected(NoMatchingCommit); }
      if h in revealedHashes { return DuplicateIgnored; }
      if m.order.nftId != pendingCommits[h].nftId { return RevealRejected(NftIdMismatch); }
      match world.pubkey(m.order.nftId) {
        case None => return RevealRejected(BadSignature);
        case Some(key) =>
          if !world.verify(key, world.orderBytes(m.order), m.signature) { return RevealRejected(BadSignature); }
      }
      revealedHashes := revealedHashes + {h};
      pendingCommits := pendingCommits[h := pendingCommits[h].(isRevealed := true)];
      return RevealAccepted;
    }

    method ValidateBatchComplete(m: CompleteMessage) returns (r: CompleteResult)
      modifies this`batchCompleteSeen
      ensures (batchCompleteSeen, r) == DoComplete(old(batchCompleteSeen), context, m, world)
    {
      if m.batchId != context.currentBatchId { return CompleteRejected(StaleComplete); }
      if world.assign(m.sender, m.batchId, context.numPools) != m.poolId { return CompleteRejected(WrongAssignment); }
      match world.pubkey(m.sender) {
        case None => return CompleteRejected(UnverifiedComplete);
        case Some(key) =>
          if !world.verify(key, world.completeText(m), m.signature) { return CompleteRejected(UnverifiedComplete); }
      }
      if (m.sender, m.symbol) in batchCompleteSeen { return CompleteRejected(DuplicateSender); }
      batchCompleteSeen := batchCompleteSeen + {(m.sender, m.symbol)};
      return CompleteAccepted;
    }

    /** The quota keeps the limit it was created with, whatever the new context says. */
    method ResetForNewBatch(newContext: ValidationContext)
      modifies this, quotaTracker
      ensures Now() == Start(newContext, quotaTracker.limit) && batchCompleteSeen == {}
    {
      context := newContext;
      pendingCommits, revealedHashes, batchCompleteSeen := map[], {}, {};
      quotaTracker.Reset();
    }
  }

  function Start(context: ValidationContext, limit: nat): State {
    State(context, map[], Quota(map[], map[], limit), {})
  }

  // ----- every run between resets ------------------------------------------------------

  datatype Event = Commit(commit: CommitMessage) | Reveal(revealed: RevealMessage)

  /** A run, with the number of reveals accepted and of commits refused over quota, per NFT. */
  datatype Trace = Trace(state: State, accepted: seq<U64>, overQuota: seq<U64>)

  function Extend(t: Trace, e: Event, w: World): Trace {
    match e
    case Commit(m) =>
      var (s, r) := DoCommit(t.state, m, w);
      Trace(s, t.accepted, if r == CommitRejected(OverQuota) then t.overQuota + [m.nftId] else t.overQuota)
    case Reveal(m) =>
      var (s, r) := DoReveal(t.state, m, w);
      Trace(s, if r == RevealAccepted then t.accepted + [m.order.nftId] else t.accepted, t.overQuota)
  }

  function Run(start: State, events: seq<Event>, w: World): Trace {
    if events == [] then Trace(start, [], []) else Extend(Run(start, events[..|events| - 1], w), events[|events| - 1], w)
  }

  type Pending = map<Hash, CommitRecord>

  function PendingOf(pending: Pending, nftId: U64): set<Hash> {
    set h | h in pending && pending[h].nftId == nftId
  }

  function RevealedOf(pending: Pending, nftId: U64): set<Hash> {
    set h | h in pending && pending[h].nftId == nftId && pending[h].isRevealed
  }

  /** The revealed set is exactly the pending commits flagged revealed. */
  ghost predicate FlagsMatch(s: State) {
    forall h :: h in s.seen <==> h in s.pending && s.pending[h].isRevealed
  }

  /** Accepted reveals <= pending commits <= counter <= limit, the counter being the evidence cut at the limit. */
  ghost predicate Chain(t: Trace, nftId: U64) {
    var s := t.state;
    && multiset(t.accepted)[nftId] == |RevealedOf(s.pending, nftId)| <= |PendingOf(s.pending, nftId)| <= CountOf(s.quota, nftId)
    && QuotaExact(s.quota, nftId, multiset(t.overQuota)[nftId])
  }

  /** The counter is the evidence cut at the limit, and the rest of the evidence was refused. */
  ghost predicate QuotaExact(q: Quota, nftId: U64, refused: nat) {
    && CountOf(q, nftId) == Min(EvidenceLength(q, nftId), q.limit)
    && EvidenceLength(q, nftId) == CountOf(q, nftId) + refused
  }

  lemma RecordEffect(q: Quota, m: CommitMessage, nftId: U64)
    ensures var q' := Record(q, m);
      && EvidenceLength(q', nftId) == EvidenceLength(q, nftId) + (if m.nftId == nftId then 1 else 0)
      && CountOf(q', nftId) == CountOf(q, nftId) + (if m.nftId == nftId && CountOf(q, nftId) < q.limit then 1 else 0)
  {
  }

  lemma QuotaExactKept(q: Quota, m: CommitMessage, nftId: U64, refused: nat)
    requires QuotaExact(q, nftId, refused)
    ensures QuotaExact(Record(q, m), nftId, refused + if m.nftId == nftId && CountOf(q, nftId) >= q.limit then 1 else 0)
    ensures CountOf(Record(q, m), nftId) == CountOf(q, nftId) + (if m.nftId == nftId && CountOf(q, nftId) < q.limit then 1 else 0)
  {
    RecordEffect(q, m, nftId);
  }

  lemma PendingAfterCommit(pending: Pending, m: CommitMessage, nftId: U64)
    requires m.hash !in pending
    ensures var after := pending[m.hash := RecordOf(m)];
      && |PendingOf(after, nftId)| == |PendingOf(pending, nftId)| + (if m.nftId == nftId then 1 else 0)
      && RevealedOf(after, nftId) == RevealedOf(pending, nftId)
  {
    assert PendingOf(pending[m.hash := RecordOf(m)], nftId)
      == PendingOf(pending, nftId) + if m.nftId == nftId then {m.hash} else {};
  }

  lemma PendingAfterReveal(pending: Pending, h: Hash, nftId: U64)
    requires h in pending && !pending[h].isRevealed
    ensures var after := pending[h := pending[h].(isRevealed := true)];
      && PendingOf(after, nftId) == PendingOf(pending, nftId)
      && |RevealedOf(after, nftId)| == |RevealedOf(pending, nftId)| + (if pending[h].nftId == nftId then 1 else 0)
      && |RevealedOf(after, nftId)| <= |PendingOf(after, nftId)|
  {
    var after := pending[h := pending[h].(isRevealed := true)];
    assert RevealedOf(after, nftId) == RevealedOf(pending, nftId) + if pending[h].nftId == nftId then {h} else {};
    assert h !in RevealedOf(pending, nftId);
    SubsetSize(RevealedOf(after, nftId), PendingOf(after, nftId));
  }

  /** A commit past the quota: only its evidence is kept. */
  lemma OverQuotaChain(t: Trace, m: CommitMessage, nftId: U64)
    requires Chain(t, nftId) && CountOf(t.state.quota, m.nftId) >= t.state.quota.limit
    ensures Chain(Trace(t.state.(quota := Record(t.state.quota, m)), t.accepted, t.overQuota + [m.nftId]), nftId)
  {
    QuotaExactKept(t.state.quota, m, nftId, multiset(t.overQuota)[nftId]);
  }

  /** A commit within the quota, of a hash that is new or already pending. */
  lemma WithinQuotaChain(t: Trace, m: CommitMessage, nftId: U64)
    requires Chain(t, nftId) && CountOf(t.state.quota, m.nftId) < t.state.quota.limit
    ensures var s := t.state.(quota := Record(t.state.quota, m));
      && Chain(t.(state := s), nftId)
      && (m.hash !in s.pending ==> Chain(t.(state := s.(pending := s.pending[m.hash := RecordOf(m)])), nftId))
  {
    QuotaExactKept(t.state.quota, m, nftId, multiset(t.overQuota)[nftId]);
    if m.hash !in t.state.pending { PendingAfterCommit(t.state.pending, m, nftId); }
  }

  lemma CommitFlags(s: State, m: CommitMessage, w: World)
    requires FlagsMatch(s)
    ensures FlagsMatch(DoCommit(s, m, w).0)
  {
  }

  lemma CommitChain(t: Trace, m: CommitMessage, w: World, nftId: U64)
    requires FlagsMatch(t.state) && Chain(t, nftId)
    ensures FlagsMatch(Extend(t, Commit(m), w).state) && Chain(Extend(t, Commit(m), w), nftId)
  {
    CommitFlags(t.state, m, w);
    if Objection(t.state, m, w).None? {
      if CountOf(t.state.quota, m.nftId) >= t.state.quota.limit {
        OverQuotaChain(t, m, nftId);
      } else {
        WithinQuotaChain(t, m, nftId);
      }
    }
  }

  lemma RevealChain(t: Trace, m: RevealMessage, w: World, nftId: U64)
    requires FlagsMatch(t.state) && Chain(t, nftId)
    ensures FlagsMatch(Extend(t, Reveal(m), w).state) && Chain(Extend(t, Reveal(m), w), nftId)
  {
    if DoReveal(t.state, m, w).1 == RevealAccepted {
      PendingAfterReveal(t.state.pending, w.orderHash(m.order), nftId);
    }
  }

  lemma SubsetSize<T>(a: set<T>, b: set<T>)
    requires a <= b
    ensures |a| <= |b|
  {
    assert b == a + (b - a);
  }

  /** Over every run between resets the quota chain holds for every NFT. */
  lemma {:induction false} QuotaChain(context: ValidationContext, limit: nat, events: seq<Event>, w: World, nftId: U64)
    ensures FlagsMatch(Run(Start(context, limit), events, w).state)
    ensures Chain(Run(Start(context, limit), events, w), nftId)
  {
    if events != [] {
      var front, last := events[..|events| - 1], events[|events| - 1];
      QuotaChain(context, limit, front, w, nftId);
      var t := Run(Start(context, limit), front, w);
      match last
      case Commit(m) => CommitChain(t, m, w, nftId);
      case Reveal(m) => RevealChain(t, m, w, nftId);
    } else {
      var s := Start(context, limit);
      assert RevealedOf(s.pending, nftId) == {} && PendingOf(s.pending, nftId) == {};
    }
  }

  /** An NFT can be reported exactly when one of its commits was refused over quota. */
  lemma ReportableExactly(context: ValidationContext, limit: nat, events: seq<Event>, w: World, nftId: U64)
    ensures var t := Run(Start(context, limit), events, w);
      EvidenceLength(t.state.quota, nftId) > limit <==> nftId in t.overQuota
  {
    QuotaChain(context, limit, events, w, nftId);
    LimitKept(Start(context, limit), events, w);
    OverQuotaAtLimit(context, limit, events, w, nftId);
    var t := Run(Start(context, limit), events, w);
    assert nftId in t.overQuota <==> nftId in multiset(t.overQuota);
  }

  lemma {:induction false} LimitKept(start: State, events: seq<Event>, w: World)
    ensures Run(start, events, w).state.quota.limit == start.quota.limit
  {
    if events != [] { LimitKept(start, events[..|events| - 1], w); }
  }

  lemma ExtendAtLimit(t: Trace, e: Event, w: World, nftId: U64)
    requires CountOf(t.state.quota, nftId) <= t.state.quota.limit
    requires nftId in t.overQuota ==> CountOf(t.state.quota, nftId) == t.state.quota.limit
    ensures nftId in Extend(t, e, w).overQuota ==> CountOf(Extend(t, e, w).state.quota, nftId) == t.state.quota.limit
  {
    if e.Commit? { RecordEffect(t.state.quota, e.commit, nftId); }
  }

  /** Over-quota refusals only happen at the limit, where the counter stays. */
  lemma {:induction false} OverQuotaAtLimit(context: ValidationContext, limit: nat, events: seq<Event>, w: World, nftId: U64)
    ensures var t := Run(Start(context, limit), events, w);
      nftId in t.overQuota ==> CountOf(t.state.quota, nftId) == limit
  {
    if events != [] {
      var front := events[..|events| - 1];
      OverQuotaAtLimit(context, limit, front, w, nftId);
      QuotaChain(context, limit, front, w, nftId);
      LimitKept(Start(context, limit), front, w);
      ExtendAtLimit(Run(Start(context, limit), front, w), events[|events| - 1], w, nftId);
    }
  }

  /** A pending commit that was accepted stays pending, under the same NFT, until the reset. */
  lemma {:induction false} CommitsKept(start: State, events: seq<Event>, w: World, h: Hash)
    requires h in start.pending
    ensures var s := Run(start, events, w).state;
      h in s.pending && s.pending[h].nftId == start.pending[h].nftId && (start.pending[h].isRevealed ==> s.pending[h].isRevealed)
  {
    if events != [] { CommitsKept(start, events[..|events| - 1], w, h); }
  }

  // ----- what passes, read off the events ------------------------------------------------

  /** A commit of this batch and pool, from its NFT's pool, of a registered NFT that is not blocked, signed by its key. */
  predicate SoundCommit(c: ValidationContext, m: CommitMessage, w: World) {
    && m.batchId == c.currentBatchId && m.poolId == c.myPoolId && m.poolId == w.assign(m.nftId, m.batchId, c.numPools)
    && !w.blocked(m.nftId) && w.registered(m.nftId)
    && w.pubkey(m.nftId).Some?
    && w.verify(w.pubkey(m.nftId).value, w.commitText(m.batchId, m.poolId, m.hash), m.signature)
  }

  /** The sound commits of an NFT, in order of arrival. */
  function SoundOf(c: ValidationContext, events: seq<Event>, w: World, nftId: U64): seq<CommitMessage> {
    if events == [] then []
    else
      var front, e := events[..|events| - 1], events[|events| - 1];
      SoundOf(c, front, w, nftId)
        + if e.Commit? && e.commit.nftId == nftId && SoundCommit(c, e.commit, w) then [e.commit] else []
  }

  function HashesIn(ms: seq<CommitMessage>): seq<Hash> {
    seq(|ms|, k requires 0 <= k < |ms| => ms[k].hash)
  }

  function SignaturesIn(ms: seq<CommitMessage>): seq<Bytes> {
    seq(|ms|, k requires 0 <= k < |ms| => ms[k].signature)
  }

  /** The evidence on an NFT is its sound commits: hashes and signatures in order of arrival. */
  ghost predicate EvidenceIs(q: Quota, nftId: U64, batchId: nat, poolId: U64, ms: seq<CommitMessage>) {
    if ms == [] then nftId !in q.evidence
    else nftId in q.evidence && q.evidence[nftId] == Evidence(nftId, batchId, poolId, HashesIn(ms), SignaturesIn(ms))
  }

  lemma ObjectionMeaning(s: State, m: CommitMessage, w: World)
    ensures Objection(s, m, w) == None <==> SoundCommit(s.context, m, w)
    ensures var c, o := s.context, Objection(s, m, w);
      && (o == Some(WrongBatch) <==> m.batchId != c.currentBatchId)
      && (o == Some(WrongPool) <==> m.batchId == c.currentBatchId && m.poolId != c.myPoolId)
      && (o == Some(BadPoolAssignment) <==>
            m.batchId == c.currentBatchId && m.poolId == c.myPoolId && m.poolId != w.assign(m.nftId, m.batchId, c.numPools))
      && (o == Some(BlockedNft) ==> w.blocked(m.nftId))
      && (o == Some(UnregisteredNft) ==> !w.blocked(m.nftId) && !w.registered(m.nftId))
      && (o == Some(InvalidSignature) ==>
            && !w.blocked(m.nftId) && w.registered(m.nftId)
            && (w.pubkey(m.nftId) == None
                || !w.verify(w.pubkey(m.nftId).value, w.commitText(m.batchId, m.poolId, m.hash), m.signature)))
      && o != Some(OverQuota) && o != Some(DuplicateHash)
  {
  }

  lemma {:induction false} ContextKept(start: State, events: seq<Event>, w: World)
    ensures Run(start, events, w).state.context == start.context
  {
    if events != [] { ContextKept(start, events[..|events| - 1], w); }
  }

  lemma RecordEvidence(q: Quota, m: CommitMessage, nftId: U64, batchId: nat, poolId: U64, ms: seq<CommitMessage>)
    requires EvidenceIs(q, nftId, batchId, poolId, ms) && m.batchId == batchId && m.poolId == poolId
    ensures EvidenceIs(Record(q, m), nftId, batchId, poolId, if m.nftId == nftId then ms + [m] else ms)
  {
    assert HashesIn(ms + [m]) == HashesIn(ms) + [m.hash] && SignaturesIn(ms + [m]) == SignaturesIn(ms) + [m.signature];
    assert HashesIn([]) == [] && SignaturesIn([]) == [];
  }

  /** Over every run the evidence is just the sound commits, past the quota too. */
  lemma {:induction false} EvidenceExactly(c: ValidationContext, limit: nat, events: seq<Event>, w: World, nftId: U64)
    ensures EvidenceIs(Run(Start(c, limit), events, w).state.quota, nftId, c.currentBatchId, c.myPoolId, SoundOf(c, events, w, nftId))
  {
    if events != [] {
      var front, e := events[..|events| - 1], events[|events| - 1];
      EvidenceExactly(c, limit, front, w, nftId);
      ContextKept(Start(c, limit), front, w);
      var s := Run(Start(c, limit), front, w).state;
      if e.Commit? {
        ObjectionMeaning(s, e.commit, w);
        if SoundCommit(c, e.commit, w) {
          RecordEvidence(s.quota, e.commit, nftId, c.currentBatchId, c.myPoolId, SoundOf(c, front, w, nftId));
        }
      }
    }
  }

  /** The commits and the reveals accepted in a run. */
  function AcceptedCommits(start: State, events: seq<Event>, w: World): seq<CommitMessage> {
    if events == [] then []
    else
      var front, e := events[..|events| - 1], events[|events| - 1];
      AcceptedCommits(start, front, w)
        + if e.Commit? && DoCommit(Run(start, front, w).state, e.commit, w).1 == CommitAccepted then [e.commit] else []
  }

  function AcceptedReveals(start: State, events: seq<Event>, w: World): seq<RevealMessage> {
    if events == [] then []
    else
      var front, e := events[..|events| - 1], events[|events| - 1];
      AcceptedReveals(start, front, w)
        + if e.Reveal? && DoReveal(Run(start, front, w).state, e.revealed, w).1 == RevealAccepted then [e.revealed] else []
  }

  /** A commit of this hash was accepted. */
  ghost predicate Committed(ms: seq<CommitMessage>, h: Hash) {
    exists k :: 0 <= k < |ms| && ms[k].hash == h
  }

  ghost predicate Opened(ms: seq<RevealMessage>, h: Hash, w: World) {
    exists k :: 0 <= k < |ms| && w.orderHash(ms[k].order) == h
  }

  /** What is pending is what was accepted, as it was announced; what was seen is what was accepted. */
  ghost predicate Books(s: State, commits: seq<CommitMessage>, openings: seq<RevealMessage>, w: World) {
    && (forall h :: h in s.pending <==> Committed(commits, h))
    && (forall k :: 0 <= k < |commits| ==>
          var m := commits[k];
          m.hash in s.pending && s.pending[m.hash].(isRevealed := false) == CommitRecord(m.batchId, m.poolId, m.hash, m.nftId, m.signature, false))
    && (forall h :: h in s.seen <==> Opened(openings, h, w))
  }

  lemma CommittedSnoc(ms: seq<CommitMessage>, m: CommitMessage, h: Hash)
    ensures Committed(ms + [m], h) <==> Committed(ms, h) || m.hash == h
  {
    if k :| 0 <= k < |ms| && ms[k].hash == h { assert (ms + [m])[k] == ms[k]; }
    assert (ms + [m])[|ms|] == m;
  }

  lemma OpenedSnoc(ms: seq<RevealMessage>, m: RevealMessage, h: Hash, w: World)
    ensures Opened(ms + [m], h, w) <==> Opened(ms, h, w) || w.orderHash(m.order) == h
  {
    if k :| 0 <= k < |ms| && w.orderHash(ms[k].order) == h { assert (ms + [m])[k] == ms[k]; }
    assert (ms + [m])[|ms|] == m;
  }

  lemma CommitBooks(s: State, commits: seq<CommitMessage>, openings: seq<RevealMessage>, m: CommitMessage, w: World)
    requires Books(s, commits, openings, w)
    ensures var (s', r) := DoCommit(s, m, w);
      Books(s', if r == CommitAccepted then commits + [m] else commits, openings, w)
  {
    forall h ensures Committed(commits + [m], h) <==> Committed(commits, h) || m.hash == h { CommittedSnoc(commits, m, h); }
    var (s', r) := DoCommit(s, m, w);
    if r == CommitAccepted {
      forall k | 0 <= k < |commits| ensures commits[k].hash != m.hash { assert commits[k].hash in s.pending; }
    }
  }

  lemma RevealBooks(s: State, commits: seq<CommitMessage>, openings: seq<RevealMessage>, m: RevealMessage, w: World)
    requires Books(s, commits, openings, w)
    ensures var (s', r) := DoReveal(s, m, w);
      Books(s', commits, if r == RevealAccepted then openings + [m] else openings, w)
  {
    forall h ensures Opened(openings + [m], h, w) <==> Opened(openings, h, w) || w.orderHash(m.order) == h { OpenedSnoc(openings, m, h, w); }
  }

  lemma {:induction false} RunBooks(c: ValidationContext, limit: nat, events: seq<Event>, w: World)
    ensures var start := Start(c, limit);
      Books(Run(start, events, w).state, AcceptedCommits(start, events, w), AcceptedReveals(start, events, w), w)
  {
    var start := Start(c, limit);
    if events != [] {
      var front, e := events[..|events| - 1], events[|events| - 1];
      RunBooks(c, limit, front, w);
      var s, commits, openings := Run(start, front, w).state, AcceptedCommits(start, front, w), AcceptedReveals(start, front, w);
      assert commits + [] == commits && openings + [] == openings;
      match e
      case Commit(m) => CommitBooks(s, commits, openings, m, w);
      case Reveal(m) => RevealBooks(s, commits, openings, m, w);
    }
  }

  /** After any run, a commit is accepted exactly if it is sound, its NFT has sent fewer sound commits than the limit, and
      none of its hash was accepted; over the limit or of a known hash it is refused as such. */
  lemma CommitAcceptedExactly(c: ValidationContext, limit: nat, events: seq<Event>, w: World, m: CommitMessage)
    ensures var start := Start(c, limit);
      var r, sent := DoCommit(Run(start, events, w).state, m, w).1, |SoundOf(c, events, w, m.nftId)|;
      var known := Committed(AcceptedCommits(start, events, w), m.hash);
      && (r == CommitAccepted <==> SoundCommit(c, m, w) && sent < limit && !known)
      && (r == CommitRejected(OverQuota) <==> SoundCommit(c, m, w) && sent >= limit)
      && (r == CommitRejected(DuplicateHash) <==> SoundCommit(c, m, w) && sent < limit && known)
  {
    var start := Start(c, limit);
    var s := Run(start, events, w).state;
    ContextKept(start, events, w);
    LimitKept(start, events, w);
    RunBooks(c, limit, events, w);
    EvidenceExactly(c, limit, events, w, m.nftId);
    QuotaChain(c, limit, events, w, m.nftId);
    ObjectionMeaning(s, m, w);
    assert EvidenceLength(s.quota, m.nftId) == |SoundOf(c, events, w, m.nftId)|;
  }

  /** The NFT committed to the hash. */
  ghost predicate CommittedBy(ms: seq<CommitMessage>, h: Hash, nftId: U64) {
    exists k :: 0 <= k < |ms| && ms[k].hash == h && ms[k].nftId == nftId
  }

  lemma PendingOwner(s: State, commits: seq<CommitMessage>, openings: seq<RevealMessage>, w: World, h: Hash, nftId: U64)
    requires Books(s, commits, openings, w)
    ensures CommittedBy(commits, h, nftId) <==> h in s.pending && s.pending[h].nftId == nftId
  {
    if h in s.pending {
      var k :| 0 <= k < |commits| && commits[k].hash == h;
      assert s.pending[h].nftId == commits[k].nftId;
    }
  }

  /** After any run, a reveal is accepted exactly if it is of the batch, opens an accepted commit of its own NFT that was not
      opened before, and is signed by the NFT's key. */
  lemma RevealAcceptedExactly(c: ValidationContext, limit: nat, events: seq<Event>, w: World, m: RevealMessage)
    ensures var start, h := Start(c, limit), w.orderHash(m.order);
      var r, commits := DoReveal(Run(start, events, w).state, m, w).1, AcceptedCommits(start, events, w);
      var shown := Opened(AcceptedReveals(start, events, w), h, w);
      var own := CommittedBy(commits, h, m.order.nftId);
      var key := w.pubkey(m.order.nftId);
      && (r == RevealAccepted <==>
            && m.batchId == c.currentBatchId && own && !shown
            && key.Some? && w.verify(key.value, w.orderBytes(m.order), m.signature))
      && (r == RevealRejected(StaleBatch) <==> m.batchId != c.currentBatchId)
      && (r == RevealRejected(NoMatchingCommit) <==> m.batchId == c.currentBatchId && !Committed(commits, h))
      && (r == DuplicateIgnored <==> m.batchId == c.currentBatchId && Committed(commits, h) && shown)
      && (r == RevealRejected(NftIdMismatch) <==> m.batchId == c.currentBatchId && Committed(commits, h) && !shown && !own)
  {
    var start := Start(c, limit);
    ContextKept(start, events, w);
    RunBooks(c, limit, events, w);
    PendingOwner(Run(start, events, w).state, AcceptedCommits(start, events, w), AcceptedReveals(start, events, w), w,
                 w.orderHash(m.order), m.order.nftId);
  }

  /** Why a completion report is refused. */
  lemma CompleteMeaning(seen: Reports, c: ValidationContext, m: CompleteMessage, w: World)
    ensures var r := DoComplete(seen, c, m, w).1;
      && (r == CompleteRejected(StaleComplete) <==> m.batchId != c.currentBatchId)
      && (r == CompleteRejected(WrongAssignment) <==>
            m.batchId == c.currentBatchId && m.poolId != w.assign(m.sender, m.batchId, c.numPools))
      && (r == CompleteRejected(DuplicateSender) <==> Genuine(c, m, w) && (m.sender, m.symbol) in seen)
  {
  }

  // ----- completion reports between resets -------------------------------------------------

  datatype Reporting = Reporting(seen: Reports, accepted: seq<CompleteMessage>)

  function Collect(context: ValidationContext, ms: seq<CompleteMessage>, w: World): Reporting {
    if ms == [] then Reporting({}, [])
    else
      var before := Collect(context, ms[..|ms| - 1], w);
      var (seen, r) := DoComplete(before.seen, context, ms[|ms| - 1], w);
      Reporting(seen, if r == CompleteAccepted then before.accepted + [ms[|ms| - 1]] else before.accepted)
  }

  /** A report of this batch from its sender's pool, signed by the sender. */
  predicate Genuine(context: ValidationContext, m: CompleteMessage, w: World) {
    && m.batchId == context.currentBatchId
    && m.poolId == w.assign(m.sender, m.batchId, context.numPools)
    && w.pubkey(m.sender).Some?
    && w.verify(w.pubkey(m.sender).value, w.completeText(m), m.signature)
  }

  ghost predicate SameReport(a: CompleteMessage, b: CompleteMessage) {
    a.sender == b.sender && a.poolId == b.poolId && a.symbol == b.symbol
  }

  /** The seen set is what was accepted; accepted reports are genuine and differ in sender, pool or symbol. */
  ghost predicate OncePerMarket(context: ValidationContext, t: Reporting, w: World) {
    && (forall k :: 0 <= k < |t.accepted| ==>
          Genuine(context, t.accepted[k], w) && (t.accepted[k].sender, t.accepted[k].symbol) in t.seen)
    && (forall key :: key in t.seen ==> exists k :: 0 <= k < |t.accepted| && (t.accepted[k].sender, t.accepted[k].symbol) == key)
    && (forall i, j :: 0 <= i < j < |t.accepted| ==> !SameReport(t.accepted[i], t.accepted[j]))
  }

  lemma CollectStep(context: ValidationContext, t: Reporting, m: CompleteMessage, w: World)
    requires OncePerMarket(context, t, w)
    ensures var (seen, r) := DoComplete(t.seen, context, m, w);
      OncePerMarket(context, Reporting(seen, if r == CompleteAccepted then t.accepted + [m] else t.accepted), w)
  {
    var (seen, r) := DoComplete(t.seen, context, m, w);
    FirstReport(context, t, m, w);
    if r == CompleteAccepted {
      var all := t.accepted + [m];
      forall key | key in seen ensures exists k :: 0 <= k < |all| && (all[k].sender, all[k].symbol) == key {
        if key in t.seen {
          var k :| 0 <= k < |t.accepted| && (t.accepted[k].sender, t.accepted[k].symbol) == key;
          assert all[k] == t.accepted[k];
        } else {
          assert all[|t.accepted|] == m;
        }
      }
    }
  }

  lemma FirstReport(context: ValidationContext, t: Reporting, m: CompleteMessage, w: World)
    requires OncePerMarket(context, t, w)
    ensures DoComplete(t.seen, context, m, w).1 == CompleteAccepted <==>
      Genuine(context, m, w) && forall k :: 0 <= k < |t.accepted| ==> !SameReport(t.accepted[k], m)
  {
    if Genuine(context, m, w) && (m.sender, m.symbol) in t.seen {
      var k :| 0 <= k < |t.accepted| && (t.accepted[k].sender, t.accepted[k].symbol) == (m.sender, m.symbol);
      assert SameReport(t.accepted[k], m);
    }
  }

  /** Keying the reports by sender and symbol keeps them unique per pool and symbol: a report passes exactly when it is
      genuine and the first of its sender for that pool and symbol. */
  lemma {:induction false} ReportsOncePerMarket(context: ValidationContext, ms: seq<CompleteMessage>, m: CompleteMessage, w: World)
    ensures var t := Collect(context, ms, w);
      && OncePerMarket(context, t, w)
      && (DoComplete(t.seen, context, m, w).1 == CompleteAccepted <==>
            Genuine(context, m, w) && forall k :: 0 <= k < |t.accepted| ==> !SameReport(t.accepted[k], m))
  {
    if ms != [] {
      var front, last := ms[..|ms| - 1], ms[|ms| - 1];
      ReportsOncePerMarket(context, front, last, w);
      CollectStep(context, Collect(context, front, w), last, w);
    }
    FirstReport(context, Collect(context, ms, w), m, w);
  }
}
