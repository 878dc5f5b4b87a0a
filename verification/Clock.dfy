/** Block height to batch and phase, across parameter changes. */
module Clock {
  import opened Basics

  datatype Phase = Commit | Reveal | Match | Swap

  datatype BatchParams = BatchParams(
    blocksPerBatch: nat, commitBlocks: nat, revealBlocks: nat, matchBlocks: nat, swapBlocks: nat, commitsPerBatch: nat)

  datatype BatchEpoch = BatchEpoch(anchorBlock: nat, anchorBatchId: nat)

  function ComputeBatchId(height: nat, epoch: BatchEpoch, params: BatchParams): nat
    requires params.blocksPerBatch > 0
  {
    epoch.anchorBatchId + SaturatingSub(height, epoch.anchorBlock) / params.blocksPerBatch
  }

  function ComputePhase(height: nat, epoch: BatchEpoch, params: BatchParams): Phase
    requires params.blocksPerBatch > 0
  {
    var inBatch := SaturatingSub(height, epoch.anchorBlock) % params.blocksPerBatch;
    var commitEnd := params.commitBlocks;
    var revealEnd := commitEnd + params.revealBlocks;
    var matchEnd := revealEnd + params.matchBlocks;
    if inBatch < commitEnd then Commit
    else if inBatch < revealEnd then Reveal
    else if inBatch < matchEnd then Phase.Match
    else Swap
  }

  function ComputeNewEpoch(oldEpoch: BatchEpoch, oldParams: BatchParams, effectiveAtBatch: nat): BatchEpoch {
    var batchesAhead := SaturatingSub(effectiveAtBatch, oldEpoch.anchorBatchId);
    BatchEpoch(oldEpoch.anchorBlock + batchesAhead * oldParams.blocksPerBatch, effectiveAtBatch)
  }

  predicate IsPhaseBoundary(oldBlock: nat, newBlock: nat, epoch: BatchEpoch, params: BatchParams)
    requires params.blocksPerBatch > 0
  {
    ComputePhase(oldBlock, epoch, params) != ComputePhase(newBlock, epoch, params)
  }

  // ----- positions --------------------------------------------------------------

  function PhaseIndex(phase: Phase): nat {
    match phase
    case Commit => 0
    case Reveal => 1
    case Match => 2
    case Swap => 3
  }

  /** (batch, phase) in lexicographic order, as one number. */
  function PositionOf(batchId: nat, phase: Phase): nat {
    4 * batchId + PhaseIndex(phase)
  }

  function Position(height: nat, epoch: BatchEpoch, params: BatchParams): nat
    requires params.blocksPerBatch > 0
  {
    PositionOf(ComputeBatchId(height, epoch, params), ComputePhase(height, epoch, params))
  }

  /** Every phase takes time and the phases make up the batch. */
  predicate WellTimed(params: BatchParams) {
    && params.commitBlocks > 0 && params.revealBlocks > 0 && params.matchBlocks > 0 && params.swapBlocks > 0
    && params.commitBlocks + params.revealBlocks + params.matchBlocks + params.swapBlocks == params.blocksPerBatch
  }

  lemma NextQuotient(n: nat, d: nat)
    requires d > 0
    ensures if n % d + 1 == d then (n + 1) / d == n / d + 1 && (n + 1) % d == 0
            else (n + 1) / d == n / d && (n + 1) % d == n % d + 1
  {
    Recompose(n, d);
    if n % d + 1 == d {
      assert (n / d + 1) * d == (n / d) * d + d;
      QuotientOf(n + 1, n / d + 1, 0, d);
    } else {
      QuotientOf(n + 1, n / d, n % d + 1, d);
    }
  }

  /** Within one epoch each block stays in its phase or enters the next one. */
  lemma StepPosition(height: nat, epoch: BatchEpoch, params: BatchParams)
    requires WellTimed(params)
    ensures Position(height, epoch, params) <= Position(height + 1, epoch, params) <= Position(height, epoch, params) + 1
  {
    if height >= epoch.anchorBlock {
      NextQuotient(height - epoch.anchorBlock, params.blocksPerBatch);
    } else if height + 1 == epoch.anchorBlock {
      assert SaturatingSub(height + 1, epoch.anchorBlock) == 0;
    }
  }

  /** A boundary between consecutive blocks is exactly a step of the position. */
  lemma BoundaryIsStep(height: nat, epoch: BatchEpoch, params: BatchParams)
    requires WellTimed(params)
    ensures IsPhaseBoundary(height, height + 1, epoch, params)
       <==> Position(height + 1, epoch, params) == Position(height, epoch, params) + 1
  {
    StepPosition(height, epoch, params);
  }

  lemma {:induction false} PositionMonotone(a: nat, b: nat, epoch: BatchEpoch, params: BatchParams)
    requires WellTimed(params) && a <= b
    ensures Position(a, epoch, params) <= Position(b, epoch, params)
    decreases b - a
  {
    if a < b {
      PositionMonotone(a, b - 1, epoch, params);
      StepPosition(b - 1, epoch, params);
    }
  }

  /** The blocks of the n-th batch after the anchor, one by one: first the commit blocks, then the reveal blocks, then the match
      blocks, and Swap for the rest. Before the anchor it is the first block of the anchor batch. */
  lemma PhaseBlocks(n: nat, k: nat, epoch: BatchEpoch, params: BatchParams)
    requires k < params.blocksPerBatch
    ensures var height := epoch.anchorBlock + n * params.blocksPerBatch + k;
      var phase := ComputePhase(height, epoch, params);
      && ComputeBatchId(height, epoch, params) == epoch.anchorBatchId + n
      && (phase == Commit <==> k < params.commitBlocks)
      && (phase == Reveal <==> params.commitBlocks <= k < params.commitBlocks + params.revealBlocks)
      && (phase == Phase.Match <==>
            params.commitBlocks + params.revealBlocks <= k < params.commitBlocks + params.revealBlocks + params.matchBlocks)
      && (phase == Swap <==> params.commitBlocks + params.revealBlocks + params.matchBlocks <= k)
  {
    QuotientOf(n * params.blocksPerBatch + k, n, k, params.blocksPerBatch);
  }

  lemma BeforeAnchor(height: nat, epoch: BatchEpoch, params: BatchParams)
    requires params.blocksPerBatch > 0 && height <= epoch.anchorBlock
    ensures ComputeBatchId(height, epoch, params) == epoch.anchorBatchId
    ensures ComputePhase(height, epoch, params) == ComputePhase(epoch.anchorBlock, epoch, params)
  {
    assert SaturatingSub(height, epoch.anchorBlock) == 0 == SaturatingSub(epoch.anchorBlock, epoch.anchorBlock);
    QuotientOf(0, 0, 0, params.blocksPerBatch);
  }

  // ----- chains of parameter changes ------------------------------------------------

  /** New parameters taking effect at a batch. */
  datatype Change = Change(effectiveAtBatch: nat, params: BatchParams)

  /** The epoch and parameters in force after a number of changes. */
  function EpochAfter(epoch: BatchEpoch, params: BatchParams, changes: seq<Change>): BatchEpoch {
    if changes == [] then epoch
    else
      var front := changes[..|changes| - 1];
      ComputeNewEpoch(EpochAfter(epoch, params, front), ParamsAfter(params, front), changes[|changes| - 1].effectiveAtBatch)
  }

  function ParamsAfter(params: BatchParams, changes: seq<Change>): BatchParams {
    if changes == [] then params else changes[|changes| - 1].params
  }

  /** Changes are well timed and take effect at later and later batches. */
  predicate IncreasingChanges(epoch: BatchEpoch, params: BatchParams, changes: seq<Change>) {
    if changes == [] then WellTimed(params)
    else
      var front, last := changes[..|changes| - 1], changes[|changes| - 1];
      && IncreasingChanges(epoch, params, front)
      && WellTimed(last.params)
      && last.effectiveAtBatch > EpochAfter(epoch, params, front).anchorBatchId
  }

  /** The position at a height: the last change whose anchor has been reached decides. */
  function ChainPosition(height: nat, epoch: BatchEpoch, params: BatchParams, changes: seq<Change>): nat
    requires IncreasingChanges(epoch, params, changes)
  {
    if changes == [] || height >= EpochAfter(epoch, params, changes).anchorBlock then
      Position(height, EpochAfter(epoch, params, changes), ParamsAfter(params, changes))
    else ChainPosition(height, epoch, params, changes[..|changes| - 1])
  }

  lemma ProductGrows(n: nat, d: nat)
    requires n >= 1 && d >= 1
    ensures n * d >= d
  {
  }

  /** The new anchor lies on a batch boundary of the old epoch: the batch before it ends in Swap, it starts in Commit. */
  lemma AnchorSeam(epoch: BatchEpoch, params: BatchParams, effectiveAtBatch: nat, params': BatchParams)
    requires WellTimed(params) && WellTimed(params') && effectiveAtBatch > epoch.anchorBatchId
    ensures var epoch' := ComputeNewEpoch(epoch, params, effectiveAtBatch);
      && epoch'.anchorBlock > epoch.anchorBlock
      && Position(epoch'.anchorBlock, epoch', params') == PositionOf(effectiveAtBatch, Commit)
      && Position(epoch'.anchorBlock - 1, epoch, params) == PositionOf(effectiveAtBatch - 1, Swap)
  {
    var epoch' := ComputeNewEpoch(epoch, params, effectiveAtBatch);
    var ahead, d := effectiveAtBatch - epoch.anchorBatchId, params.blocksPerBatch;
    ProductGrows(ahead, d);
    assert ahead * d - 1 == (ahead - 1) * d + (d - 1);
    QuotientOf(ahead * d - 1, ahead - 1, d - 1, d);
    assert SaturatingSub(epoch'.anchorBlock - 1, epoch.anchorBlock) == ahead * d - 1;
    QuotientOf(0, 0, 0, params'.blocksPerBatch);
  }

  lemma {:induction false} ParamsWellTimed(epoch: BatchEpoch, params: BatchParams, changes: seq<Change>)
    requires IncreasingChanges(epoch, params, changes)
    ensures WellTimed(ParamsAfter(params, changes))
  {
  }

  /** Beyond the last anchor of a chain the chain is its last epoch. */
  lemma ChainBeyond(height: nat, epoch: BatchEpoch, params: BatchParams, changes: seq<Change>)
    requires IncreasingChanges(epoch, params, changes)
    requires height >= EpochAfter(epoch, params, changes).anchorBlock
    ensures ChainPosition(height, epoch, params, changes)
         == Position(height, EpochAfter(epoch, params, changes), ParamsAfter(params, changes))
  {
  }

  /** Across any chain of changes, each block stays in its phase or enters the next: the batch id never
      decreases, never jumps, and no phase is skipped. */
  lemma {:induction false} ChainContinuity(height: nat, epoch: BatchEpoch, params: BatchParams, changes: seq<Change>)
    requires IncreasingChanges(epoch, params, changes)
    ensures var p := ChainPosition(height, epoch, params, changes);
      p <= ChainPosition(height + 1, epoch, params, changes) <= p + 1
  {
    if changes == [] {
      StepPosition(height, epoch, params);
    } else {
      var front, last := changes[..|changes| - 1], changes[|changes| - 1];
      var before, at := EpochAfter(epoch, params, front), EpochAfter(epoch, params, changes);
      ParamsWellTimed(epoch, params, front);
      if height >= at.anchorBlock {
        StepPosition(height, at, last.params);
      } else if height + 1 == at.anchorBlock {
        AnchorSeam(before, ParamsAfter(params, front), last.effectiveAtBatch, last.params);
        ChainBeyond(height, epoch, params, front);
      } else {
        ChainContinuity(height, epoch, params, front);
      }
    }
  }

  /** Each change starts a Commit phase of exactly the batch it was announced for. */
  lemma ChangeStartsCommit(epoch: BatchEpoch, params: BatchParams, changes: seq<Change>)
    requires IncreasingChanges(epoch, params, changes) && changes != []
    ensures ChainPosition(EpochAfter(epoch, params, changes).anchorBlock, epoch, params, changes)
         == PositionOf(changes[|changes| - 1].effectiveAtBatch, Commit)
  {
    var front, last := changes[..|changes| - 1], changes[|changes| - 1];
    ParamsWellTimed(epoch, params, front);
    AnchorSeam(EpochAfter(epoch, params, front), ParamsAfter(params, front), last.effectiveAtBatch, last.params);
  }

  // ----- the bridge the orchestrator asks ------------------------------------------------

  /** The chain view of a node; pools are assigned by a function of NFT, batch and pool count. */
  class BatchStateBridge {
    var blockHeight: nat
    var epoch: BatchEpoch
    var params: BatchParams
    var numPools: nat
    const assign: (U64, nat, nat) -> U64

    ghost predicate Valid()
      reads this
    {
      params.blocksPerBatch > 0
    }

    constructor (epoch: BatchEpoch, params: BatchParams, numPools: nat, assign: (U64, nat, nat) -> U64)
      requires params.blocksPerBatch > 0
      ensures Valid()
      ensures this.epoch == epoch && this.params == params && this.numPools == numPools && this.assign == assign
      ensures PositionNow() == PositionOf(epoch.anchorBatchId, ComputePhase(epoch.anchorBlock, epoch, params))
    {
      this.blockHeight, this.epoch, this.params, this.numPools := epoch.anchorBlock, epoch, params, numPools;
      this.assign := assign;
      new;
      QuotientOf(0, 0, 0, params.blocksPerBatch);
    }

    function PositionNow(): nat
      requires Valid()
      reads this
    {
      PositionOf(CurrentBatchId(), CurrentPhase())
    }

    function CurrentPhase(): Phase
      requires Valid()
      reads this
    {
      ComputePhase(blockHeight, epoch, params)
    }

    function CurrentBatchId(): nat
      requires Valid()
      reads this
    {
      ComputeBatchId(blockHeight, epoch, params)
    }

    function CurrentPoolId(nftId: U64): U64
      requires Valid()
      reads this
    {
      assign(nftId, CurrentBatchId(), if numPools == 0 then 1 else numPools)
    }

    /** Following the chain never moves the position back. */
    method AdvanceToBlock(height: nat)
      requires Valid()
      modifies this`blockHeight
      ensures Valid() && blockHeight == height
      ensures WellTimed(params) && height >= old(blockHeight) ==> PositionNow() >= old(PositionNow())
    {
      if WellTimed(params) && height >= blockHeight { PositionMonotone(blockHeight, height, epoch, params); }
      blockHeight := height;
    }
  }
}
