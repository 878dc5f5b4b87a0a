/** The inbound gossip gate of the run loop: batch window, content dedup, rate limit, signature. */
module RunGossip {
  import opened Basics
  import opened Sorting

  const BATCH_WINDOW := 5
  const MAX_MSGS_PER_NFT_PER_BATCH := 10

  type Key = nat

  /** Who sent a message and for which batch. */
  type Sender = (U64, nat)

  /** Hashing and signature checking. */
  datatype Crypto = Crypto(sha256: Bytes -> Hash, verify: (Key, Bytes, Bytes) -> bool)

  datatype Gate = Gate(
    pubkeys: map<U64, Key>,
    seenCommits: set<Bytes>,
    seenReveals: set<Hash>,
    counts: map<Sender, nat>,
    unknown: set<U64>,
    current: nat)

  datatype Event =
    | Commit(from: Sender, commitHash: Bytes)
    | Reveal(from: Sender, orderBytes: Bytes, signature: Bytes)
    | UpdateBatch(batchId: nat)
    | ExpireOldBatches
    | CachePubkey(nftId: U64, key: Key)

  function Lower(current: nat): nat {
    SaturatingSub(current, BATCH_WINDOW)
  }

  predicate InRange(current: nat, batchId: nat) {
    current == 0 || Lower(current) <= batchId <= Min(current + BATCH_WINDOW, TWO64 - 1)
  }

  function CountOf(counts: map<Sender, nat>, from: Sender): nat {
    if from in counts then counts[from] else 0
  }

  predicate UnderLimit(g: Gate, from: Sender) {
    CountOf(g.counts, from) < MAX_MSGS_PER_NFT_PER_BATCH
  }

  /** Counting a message; a sender at the limit is refused but its counter exists. */
  function Counted(g: Gate, from: Sender): Gate {
    g.(counts := g.counts[from := CountOf(g.counts, from) + if UnderLimit(g, from) then 1 else 0])
  }

  function DoCommit(g: Gate, from: Sender, commitHash: Bytes): (Gate, bool) {
    if !InRange(g.current, from.1) || (|commitHash| == 32 && commitHash in g.seenCommits) then (g, false)
    else
      var g' := if |commitHash| == 32 then g.(seenCommits := g.seenCommits + {commitHash}) else g;
      (Counted(g', from), UnderLimit(g, from))
  }

  function DoReveal(g: Gate, from: Sender, orderBytes: Bytes, signature: Bytes, crypto: Crypto): (Gate, bool) {
    var content := crypto.sha256(orderBytes);
    var counted := Counted(g, from);
    if !InRange(g.current, from.1) || content in g.seenReveals then (g, false)
    else if !UnderLimit(g, from) then (counted, false)
    else if from.0 !in g.pubkeys then
      (counted.(counts := g.counts[from := CountOf(g.counts, from)], unknown := g.unknown + {from.0}), false)
    else if !crypto.verify(g.pubkeys[from.0], orderBytes, signature) then
      (counted.(counts := g.counts[from := CountOf(g.counts, from)]), false)
    else (counted.(seenReveals := g.seenReveals + {content}), true)
  }

  function DoExpire(g: Gate): Gate {
    var lower := Lower(g.current);
    var clear := g.current % BATCH_WINDOW == 0;
    g.(counts := map from | from in g.counts && from.1 >= lower :: g.counts[from],
       seenCommits := if clear then {} else g.seenCommits,
       seenReveals := if clear then {} else g.seenReveals)
  }

  function Step(g: Gate, e: Event, crypto: Crypto): (Gate, bool) {
    match e
    case Commit(from, h) => DoCommit(g, from, h)
    case Reveal(from, bytes, sig) => DoReveal(g, from, bytes, sig, crypto)
    case UpdateBatch(b) => (if b > g.current then g.(current := b) else g, false)
    case ExpireOldBatches => (DoExpire(g), false)
    case CachePubkey(nft, key) => (g.(pubkeys := g.pubkeys[nft := key], unknown := g.unknown - {nft}), false)
  }

  class GossipValidator {
    var nftPubkeys: map<U64, Key>
    var seenCommitHashes: set<Bytes>
    var seenRevealHashes: set<Hash>
    var msgCounts: map<Sender, nat>
    var unknownNfts: set<U64>
    var currentBatchId: nat
    const crypto: Crypto

    function Now(): Gate
      reads this
    {
      Gate(nftPubkeys, seenCommitHashes, seenRevealHashes, msgCounts, unknownNfts, currentBatchId)
    }

    constructor (initialBatchId: nat, crypto: Crypto)
      ensures Now() == Fresh(initialBatchId) && this.crypto == crypto
    {
      nftPubkeys, seenCommitHashes, seenRevealHashes, msgCounts, unknownNfts := map[], {}, {}, map[], {};
      currentBatchId := initialBatchId;
      this.crypto := crypto;
    }

    method CheckRateLimit(from: Sender) returns (ok: bool)
      modifies this`msgCounts
      ensures Now() == Counted(old(Now()), from) && ok == UnderLimit(old(Now()), from)
    {
      var count := CountOf(msgCounts, from);
      msgCounts := msgCounts[from := count];
      if count >= MAX_MSGS_PER_NFT_PER_BATCH { return false; }
      msgCounts := msgCounts[from := count + 1];
      return true;
    }

    method AcceptCommit(from: Sender, commitHash: Bytes) returns (ok: bool)
      modifies this
      ensures (Now(), ok) == Step(old(Now()), Commit(from, commitHash), crypto)
    {
      if !InRange(currentBatchId, from.1) { return false; }
      if |commitHash| == 32 {
        if commitHash in seenCommitHashes { return false; }
        seenCommitHashes := seenCommitHashes + {commitHash};
      }
      ok := CheckRateLimit(from);
    }

    method AcceptReveal(from: Sender, orderBytes: Bytes, signature: Bytes) returns (ok: bool)
      modifies this
      ensures (Now(), ok) == Step(old(Now()), Reveal(from, orderBytes, signature), crypto)
    {
      if !InRange(currentBatchId, from.1) { return false; }
      var content := crypto.sha256(orderBytes);
      if content in seenRevealHashes { return false; }
      seenRevealHashes := seenRevealHashes + {content};
      var under := CheckRateLimit(from);
      if !under {
        seenRevealHashes := seenRevealHashes - {content};
        assert seenRevealHashes == old(seenRevealHashes);
        return false;
      }
      if from.0 in nftPubkeys {
        if !crypto.verify(nftPubkeys[from.0], orderBytes, signature) {
          UndoReveal(from, content);
          assert Now().seenReveals == old(seenRevealHashes);
          assert Now().counts == old(msgCounts)[from := CountOf(old(msgCounts), from)];
          return false;
        }
        return true;
      }
      unknownNfts := unknownNfts + {from.0};
      UndoReveal(from, content);
      assert Now().seenReveals == old(seenRevealHashes);
      assert Now().counts == old(msgCounts)[from := CountOf(old(msgCounts), from)];
      return false;
    }

    /** Takes a counted reveal back. */
    method UndoReveal(from: Sender, content: Hash)
      modifies this`seenRevealHashes, this`msgCounts
      ensures seenRevealHashes == old(seenRevealHashes) - {content}
      ensures msgCounts == if from in old(msgCounts) then old(msgCounts)[from := SaturatingSub(old(msgCounts)[from], 1)] else old(msgCounts)
    {
      seenRevealHashes := seenRevealHashes - {content};
      if from in msgCounts { msgCounts := msgCounts[from := SaturatingSub(msgCounts[from], 1)]; }
    }

    method UpdateBatch(batchId: nat)
      modifies this`currentBatchId
      ensures (Now(), false) == Step(old(Now()), Event.UpdateBatch(batchId), crypto)
    {
      if batchId > currentBatchId { currentBatchId := batchId; }
    }

    method ExpireOldBatches()
      modifies this
      ensures (Now(), false) == Step(old(Now()), Event.ExpireOldBatches, crypto)
    {
      var lower := Lower(currentBatchId);
      msgCounts := map from | from in msgCounts && from.1 >= lower :: msgCounts[from];
      if currentBatchId % BATCH_WINDOW == 0 {
        seenCommitHashes, seenRevealHashes := {}, {};
      }
    }

    method CachePubkey(nftId: U64, key: Key)
      modifies this
      ensures (Now(), false) == Step(old(Now()), Event.CachePubkey(nftId, key), crypto)
    {
      nftPubkeys, unknownNfts := nftPubkeys[nftId := key], unknownNfts - {nftId};
    }
  }

  // ----- rate bound over every run ----------------------------------------------------

  function Fresh(batchId: nat): Gate {
    Gate(map[], {}, {}, map[], {}, batchId)
  }

  datatype Trace = Trace(gate: Gate, accepted: seq<Sender>)

  function Run(batchId: nat, events: seq<Event>, crypto: Crypto): Trace {
    if events == [] then Trace(Fresh(batchId), [])
    else Extend(Run(batchId, events[..|events| - 1], crypto), events[|events| - 1], crypto)
  }

  function Extend(t: Trace, e: Event, crypto: Crypto): Trace {
    var (gate, ok) := Step(t.gate, e, crypto);
    Trace(gate, if ok && (e.Commit? || e.Reveal?) then t.accepted + [e.from] else t.accepted)
  }

  /** Inside the window the counter is the number accepted; outside it the bound is all that is left. */
  ghost predicate Tallied(t: Trace, from: Sender) {
    && multiset(t.accepted)[from] <= MAX_MSGS_PER_NFT_PER_BATCH
    && (from.1 >= Lower(t.gate.current) ==> CountOf(t.gate.counts, from) == multiset(t.accepted)[from])
  }

  predicate Passes(g: Gate, e: Event, crypto: Crypto) {
    (e.Commit? || e.Reveal?) && Step(g, e, crypto).1
  }

  /** A counter in the window moves by one for an accepted message and not otherwise. */
  lemma StepCounts(g: Gate, e: Event, crypto: Crypto, from: Sender)
    ensures var g' := Step(g, e, crypto).0;
      && g'.current >= g.current
      && (Passes(g, e, crypto) ==> UnderLimit(g, e.from) && e.from.1 >= Lower(g.current))
      && (from.1 >= Lower(g'.current) ==>
            CountOf(g'.counts, from) == CountOf(g.counts, from) + if Passes(g, e, crypto) && e.from == from then 1 else 0)
  {
  }

  lemma StepTallied(before: Trace, e: Event, crypto: Crypto, from: Sender)
    requires Tallied(before, from)
    ensures Tallied(Extend(before, e, crypto), from)
  {
    StepCounts(before.gate, e, crypto, from);
  }

  /** Whatever the messages, batch updates and expiries, no sender gets more than ten through for one batch. */
  lemma {:induction false} RateBound(batchId: nat, events: seq<Event>, crypto: Crypto, from: Sender)
    ensures Tallied(Run(batchId, events, crypto), from)
  {
    if events != [] {
      RateBound(batchId, events[..|events| - 1], crypto, from);
      StepTallied(Run(batchId, events[..|events| - 1], crypto), events[|events| - 1], crypto, from);
    }
  }

  // ----- what a gate knows, read off the events ------------------------------------------

  /** The highest batch announced. */
  function CurrentAfter(batchId: nat, events: seq<Event>): nat {
    if events == [] then batchId
    else
      var before, e := CurrentAfter(batchId, events[..|events| - 1]), events[|events| - 1];
      if e.UpdateBatch? && e.batchId > before then e.batchId else before
  }

  /** The key cached last for an NFT. */
  function KeyAfter(events: seq<Event>, nft: U64): Option<Key> {
    if events == [] then None
    else if events[|events| - 1].CachePubkey? && events[|events| - 1].nftId == nft then Some(events[|events| - 1].key)
    else KeyAfter(events[..|events| - 1], nft)
  }

  /** No more than five batches back or ahead; everything before the first batch is known. */
  predicate Window(current: nat, batchId: nat) {
    current == 0 || (current <= batchId + 5 && batchId <= current + 5 && batchId <= 0xFFFF_FFFF_FFFF_FFFF)
  }

  /** The content hashes are forgotten when an expiry falls on a fifth batch. */
  predicate Forgets(batchId: nat, events: seq<Event>) {
    events != [] && events[|events| - 1].ExpireOldBatches? && CurrentAfter(batchId, events) % 5 == 0
  }

  /** The contents of the reveals accepted since they were last forgotten. */
  function HeldReveals(batchId: nat, events: seq<Event>, crypto: Crypto): set<Hash> {
    if events == [] || Forgets(batchId, events) then {}
    else
      var front, e := events[..|events| - 1], events[|events| - 1];
      HeldReveals(batchId, front, crypto)
        + if e.Reveal? && |Run(batchId, events, crypto).accepted| > |Run(batchId, front, crypto).accepted| then {crypto.sha256(e.orderBytes)} else {}
  }

  /** The hashes of 32 bytes of the commits in the window since they were last forgotten, accepted or not. */
  function HeldCommits(batchId: nat, events: seq<Event>): set<Bytes> {
    if events == [] || Forgets(batchId, events) then {}
    else
      var front, e := events[..|events| - 1], events[|events| - 1];
      HeldCommits(batchId, front)
        + if e.Commit? && |e.commitHash| == 32 && Window(CurrentAfter(batchId, front), e.from.1) then {e.commitHash} else {}
  }

  ghost predicate Remembers(g: Gate, batchId: nat, events: seq<Event>, crypto: Crypto) {
    && g.current == CurrentAfter(batchId, events)
    && (forall nft :: (if nft in g.pubkeys then Some(g.pubkeys[nft]) else None) == KeyAfter(events, nft))
    && g.seenReveals == HeldReveals(batchId, events, crypto)
    && g.seenCommits == HeldCommits(batchId, events)
  }

  lemma WindowIsRange(current: nat, batchId: nat)
    ensures InRange(current, batchId) <==> Window(current, batchId)
  {
  }

  lemma StepKeys(batchId: nat, events: seq<Event>, e: Event, crypto: Crypto, nft: U64)
    requires Remembers(Run(batchId, events, crypto).gate, batchId, events, crypto)
    ensures var g := Run(batchId, events + [e], crypto).gate;
      (if nft in g.pubkeys then Some(g.pubkeys[nft]) else None) == KeyAfter(events + [e], nft)
  {
    assert (events + [e])[..|events|] == events;
    var g := Run(batchId, events, crypto).gate;
    assert (if nft in g.pubkeys then Some(g.pubkeys[nft]) else None) == KeyAfter(events, nft);
  }

  lemma StepHeld(batchId: nat, events: seq<Event>, e: Event, crypto: Crypto)
    requires Remembers(Run(batchId, events, crypto).gate, batchId, events, crypto)
    ensures var g := Run(batchId, events + [e], crypto).gate;
      && g.current == CurrentAfter(batchId, events + [e])
      && g.seenReveals == HeldReveals(batchId, events + [e], crypto)
      && g.seenCommits == HeldCommits(batchId, events + [e])
  {
    assert (events + [e])[..|events|] == events;
    if e.Commit? || e.Reveal? { WindowIsRange(Run(batchId, events, crypto).gate.current, e.from.1); }
  }

  lemma StepRemembers(batchId: nat, events: seq<Event>, e: Event, crypto: Crypto)
    requires Remembers(Run(batchId, events, crypto).gate, batchId, events, crypto)
    ensures Remembers(Run(batchId, events + [e], crypto).gate, batchId, events + [e], crypto)
  {
    StepHeld(batchId, events, e, crypto);
    forall nft
      ensures var g := Run(batchId, events + [e], crypto).gate;
        (if nft in g.pubkeys then Some(g.pubkeys[nft]) else None) == KeyAfter(events + [e], nft)
    {
      StepKeys(batchId, events, e, crypto, nft);
    }
  }

  /** A gate knows what its events said. */
  lemma {:induction false} GateRemembers(batchId: nat, events: seq<Event>, crypto: Crypto)
    ensures Remembers(Run(batchId, events, crypto).gate, batchId, events, crypto)
  {
    if events != [] {
      var front, e := events[..|events| - 1], events[|events| - 1];
      GateRemembers(batchId, front, crypto);
      StepRemembers(batchId, front, e, crypto);
      assert events == front + [e];
    }
  }

  /** After any run, a reveal passes exactly if its batch is in the window, its content is not held, fewer than ten messages
      of its sender passed for the batch, and the key cached for the sender verifies the bytes and the signature. */
  lemma RevealPassesExactly(batchId: nat, events: seq<Event>, crypto: Crypto, from: Sender, orderBytes: Bytes, signature: Bytes)
    ensures var t, key := Run(batchId, events, crypto), KeyAfter(events, from.0);
      Step(t.gate, Reveal(from, orderBytes, signature), crypto).1 <==>
        && Window(CurrentAfter(batchId, events), from.1)
        && crypto.sha256(orderBytes) !in HeldReveals(batchId, events, crypto)
        && multiset(t.accepted)[from] < 10
        && key.Some? && crypto.verify(key.value, orderBytes, signature)
  {
    GateRemembers(batchId, events, crypto);
    RateBound(batchId, events, crypto, from);
    WindowIsRange(CurrentAfter(batchId, events), from.1);
    var g := Run(batchId, events, crypto).gate;
    assert (if from.0 in g.pubkeys then Some(g.pubkeys[from.0]) else None) == KeyAfter(events, from.0);
  }

  /** The same for a commit, of which only hashes of 32 bytes are held; commits are not signature-checked here. */
  lemma CommitPassesExactly(batchId: nat, events: seq<Event>, crypto: Crypto, from: Sender, commitHash: Bytes)
    ensures var t := Run(batchId, events, crypto);
      Step(t.gate, Commit(from, commitHash), crypto).1 <==>
        && Window(CurrentAfter(batchId, events), from.1)
        && (|commitHash| != 32 || commitHash !in HeldCommits(batchId, events))
        && multiset(t.accepted)[from] < 10
  {
    GateRemembers(batchId, events, crypto);
    RateBound(batchId, events, crypto, from);
    WindowIsRange(CurrentAfter(batchId, events), from.1);
  }

  /** Every reveal that passed in a run verified under the key cached at that moment. */
  lemma PassedVerified(batchId: nat, events: seq<Event>, crypto: Crypto, k: nat)
    requires k < |events| && events[k].Reveal? && Passes(Run(batchId, events[..k], crypto).gate, events[k], crypto)
    ensures var key := KeyAfter(events[..k], events[k].from.0);
      key.Some? && crypto.verify(key.value, events[k].orderBytes, events[k].signature)
  {
    RevealPassesExactly(batchId, events[..k], crypto, events[k].from, events[k].orderBytes, events[k].signature);
  }

  /** An expiry forgets the counters below the window and no others. */
  lemma ExpiryForgets(g: Gate, crypto: Crypto, from: Sender)
    ensures var g' := Step(g, ExpireOldBatches, crypto).0;
      && (from in g'.counts <==> from in g.counts && from.1 + 5 >= g.current)
      && (from in g'.counts ==> g'.counts[from] == g.counts[from])
  {
  }

  /** Only an NFT without a key is noted as unknown: by a reveal that nothing else keeps out, until its key is cached. */
  lemma UnknownExactly(batchId: nat, events: seq<Event>, crypto: Crypto, e: Event, nft: U64)
    ensures var t, g' := Run(batchId, events, crypto), Step(Run(batchId, events, crypto).gate, e, crypto).0;
      nft in g'.unknown <==>
        || (nft in t.gate.unknown && e != CachePubkey(nft, if e.CachePubkey? then e.key else 0))
        || (e.Reveal? && e.from.0 == nft && Window(CurrentAfter(batchId, events), e.from.1)
            && crypto.sha256(e.orderBytes) !in HeldReveals(batchId, events, crypto)
            && multiset(t.accepted)[e.from] < 10 && KeyAfter(events, nft) == None)
  {
    GateRemembers(batchId, events, crypto);
    if e.Reveal? {
      RateBound(batchId, events, crypto, e.from);
      WindowIsRange(CurrentAfter(batchId, events), e.from.1);
      var g := Run(batchId, events, crypto).gate;
      assert (if nft in g.pubkeys then Some(g.pubkeys[nft]) else None) == KeyAfter(events, nft);
    }
  }

  ghost predicate SameCounts(a: Gate, b: Gate) {
    forall from :: CountOf(a.counts, from) == CountOf(b.counts, from)
  }

  /** A rejected reveal leaves the dedup set and every effective count as they were. */
  lemma RejectedRevealLeavesNoTrace(g: Gate, from: Sender, orderBytes: Bytes, signature: Bytes, crypto: Crypto)
    ensures var (g', ok) := Step(g, Reveal(from, orderBytes, signature), crypto);
      !ok ==> g'.seenReveals == g.seenReveals && g'.seenCommits == g.seenCommits && SameCounts(g', g) && g'.current == g.current
  {
  }

  /** A rejected commit leaves the counts, and stays in the dedup set exactly when the limit refused it. */
  lemma RejectedCommitRemembered(g: Gate, from: Sender, commitHash: Bytes, crypto: Crypto)
    ensures var (g', ok) := Step(g, Commit(from, commitHash), crypto);
      !ok ==>
        && SameCounts(g', g) && g'.seenReveals == g.seenReveals
        && (g'.seenCommits != g.seenCommits <==>
              InRange(g.current, from.1) && |commitHash| == 32 && commitHash !in g.seenCommits && !UnderLimit(g, from))
  {
    var (g', ok) := Step(g, Commit(from, commitHash), crypto);
    if commitHash !in g.seenCommits { assert commitHash in g.seenCommits + {commitHash}; }
  }

  // ----- expired batches never come back --------------------------------------------------

  lemma StepOutside(g: Gate, e: Event, crypto: Crypto, from: Sender)
    requires from.1 < Lower(g.current)
    ensures var (g', ok) := Step(g, e, crypto);
      g'.current >= g.current && (e.Commit? || e.Reveal? ==> ok ==> e.from != from)
  {
  }

  /** Since `t` the window has not moved back and nothing of the sender was accepted. */
  ghost predicate NothingSince(t: Trace, u: Trace, from: Sender) {
    u.gate.current >= t.gate.current && multiset(u.accepted)[from] == multiset(t.accepted)[from]
  }

  lemma ExtendOutside(t: Trace, u: Trace, e: Event, crypto: Crypto, from: Sender)
    requires from.1 < Lower(t.gate.current) && NothingSince(t, u, from)
    ensures NothingSince(t, Extend(u, e, crypto), from)
  {
    StepOutside(u.gate, e, crypto, from);
  }

  /** The window only moves forward, so a batch below it is refused for the rest of the run. */
  lemma {:induction false} ExpiredNeverReturns(batchId: nat, events: seq<Event>, later: seq<Event>, crypto: Crypto, from: Sender)
    requires from.1 < Lower(Run(batchId, events, crypto).gate.current)
    ensures NothingSince(Run(batchId, events, crypto), Run(batchId, events + later, crypto), from)
  {
    if later == [] {
      assert events + later == events;
    } else {
      var front, last := later[..|later| - 1], later[|later| - 1];
      ExpiredNeverReturns(batchId, events, front, crypto, from);
      ExtendOutside(Run(batchId, events, crypto), Run(batchId, events + front, crypto), last, crypto, from);
      RunAppend(batchId, events, later, crypto);
    }
  }

  lemma RunAppend(batchId: nat, events: seq<Event>, later: seq<Event>, crypto: Crypto)
    requires later != []
    ensures Run(batchId, events + later, crypto)
         == Extend(Run(batchId, events + later[..|later| - 1], crypto), later[|later| - 1], crypto)
  {
    AppendSplitLast(events, later);
    RunSnoc(batchId, events + later[..|later| - 1], later[|later| - 1], crypto);
  }

  lemma RunSnoc(batchId: nat, events: seq<Event>, e: Event, crypto: Crypto)
    ensures Run(batchId, events + [e], crypto) == Extend(Run(batchId, events, crypto), e, crypto)
  {
    assert (events + [e])[..|events|] == events;
  }
}
