/** The block poller: a stream of phase and batch events from heights that stall, regress or fail. */
module Poller {
  import opened Basics
  import opened Clock

  datatype PollerEvent =
    | PhaseChanged(batchId: nat, phase: Phase, blockHeight: nat)
    | NewBatch(batchId: nat, blockHeight: nat)
    | PauseDetected

  /** One answer of the chain: a height, or a failed request. */
  datatype Poll = Height(h: nat) | Failure

  /** The batch and phase of every height. */
  datatype Schedule = Schedule(batchAt: nat -> nat, phaseAt: nat -> Phase) {
    function Pos(h: nat): nat {
      PositionOf(batchAt(h), phaseAt(h))
    }

    ghost predicate Monotone() {
      forall a: nat, b: nat :: a <= b ==> Pos(a) <= Pos(b)
    }
  }

  function ChainSchedule(epoch: BatchEpoch, params: BatchParams): Schedule
    requires params.blocksPerBatch > 0
  {
    Schedule((h: nat) => ComputeBatchId(h, epoch, params), (h: nat) => ComputePhase(h, epoch, params))
  }

  lemma ChainScheduleMonotone(epoch: BatchEpoch, params: BatchParams)
    requires WellTimed(params)
    ensures ChainSchedule(epoch, params).Monotone()
  {
    forall a: nat, b: nat | a <= b ensures ChainSchedule(epoch, params).Pos(a) <= ChainSchedule(epoch, params).Pos(b) {
      PositionMonotone(a, b, epoch, params);
    }
  }

  datatype PollerState = PollerState(lastBlock: nat, lastBatchId: nat, lastPhase: Phase, stallCount: nat)

  datatype Trace = Trace(state: PollerState, events: seq<PollerEvent>)

  function Initial(h: nat, sched: Schedule): PollerState {
    PollerState(h, sched.batchAt(h), sched.phaseAt(h), 0)
  }

  /** One turn of the loop: the new state and the event sent, if any. */
  function Turn(s: PollerState, poll: Poll, sched: Schedule, threshold: nat): (PollerState, seq<PollerEvent>) {
    match poll
    case Failure =>
      var stalls := s.stallCount + 1;
      (s.(stallCount := stalls), if stalls >= threshold then [PauseDetected] else [])
    case Height(h) =>
      var s0 := s.(stallCount := 0);
      if h <= s.lastBlock then (s0, [])
      else
        var batch, phase := sched.batchAt(h), sched.phaseAt(h);
        (PollerState(h, batch, phase, 0),
         if batch != s.lastBatchId then [NewBatch(batch, h)]
         else if phase != s.lastPhase then [PhaseChanged(batch, phase, h)]
         else [])
  }

  function Run(start: PollerState, polls: seq<Poll>, sched: Schedule, threshold: nat): Trace {
    if polls == [] then Trace(start, [])
    else
      var before := Run(start, polls[..|polls| - 1], sched, threshold);
      var (state, sent) := Turn(before.state, polls[|polls| - 1], sched, threshold);
      Trace(state, before.events + sent)
  }

  /** The polls that are looked at; 0 stands for no limit. */
  function Limited(polls: seq<Poll>, maxPolls: nat): (r: seq<Poll>)
    ensures |r| <= |polls| && r == polls[..|r|]
    ensures |r| == |polls| || |r| == maxPolls
    ensures maxPolls > 0 ==> |r| <= maxPolls
    ensures maxPolls == 0 ==> r == polls
  {
    if 0 < maxPolls < |polls| then polls[..maxPolls] else polls
  }

  /** Polls until the limit or the end of the stream; without a first height there is no run. */
  method RunBlockPoller(
    first: Poll, polls: seq<Poll>, epoch: BatchEpoch, params: BatchParams, threshold: nat, maxPolls: nat)
    returns (r: Result<Trace, ()>)
    requires params.blocksPerBatch > 0
    ensures r == match first
                 case Failure => Err(())
                 case Height(h) =>
                   var sched := ChainSchedule(epoch, params);
                   Ok(Run(Initial(h, sched), Limited(polls, maxPolls), sched, threshold)) {
    if first.Failure? { return Err(()); }
    var lastBlock, lastBatchId, lastPhase, stallCount :=
      first.h, ComputeBatchId(first.h, epoch, params), ComputePhase(first.h, epoch, params), 0;
    var events: seq<PollerEvent> := [];
    var done := 0;
    ghost var sched := ChainSchedule(epoch, params);
    ghost var start := Initial(first.h, sched);
    while done < |polls|
      invariant 0 <= done <= |polls| && (maxPolls > 0 ==> done <= maxPolls)
      invariant Trace(PollerState(lastBlock, lastBatchId, lastPhase, stallCount), events)
             == Run(start, polls[..done], sched, threshold)
    {
      if maxPolls > 0 && done + 1 > maxPolls { break; }
      assert polls[..done + 1][..done] == polls[..done];
      var poll := polls[done];
      done := done + 1;
      if poll.Failure? {
        stallCount := stallCount + 1;
        if stallCount >= threshold { events := events + [PauseDetected]; }
        continue;
      }
      stallCount := 0;
      if poll.h <= lastBlock { continue; }
      var newBatchId, newPhase := ComputeBatchId(poll.h, epoch, params), ComputePhase(poll.h, epoch, params);
      if newBatchId != lastBatchId {
        events := events + [NewBatch(newBatchId, poll.h)];
        lastBatchId, lastPhase, lastBlock := newBatchId, newPhase, poll.h;
        continue;
      }
      if newPhase != lastPhase {
        events := events + [PhaseChanged(newBatchId, newPhase, poll.h)];
        lastPhase := newPhase;
      }
      lastBlock := poll.h;
    }
    assert polls[..|polls|] == polls;
    r := Ok(Trace(PollerState(lastBlock, lastBatchId, lastPhase, stallCount), events));
  }

  // ----- the stream ------------------------------------------------------------------

  function Highest(h: nat, polls: seq<Poll>): nat {
    if polls == [] then h
    else
      var rest := Highest(h, polls[..|polls| - 1]);
      match polls[|polls| - 1]
      case Failure => rest
      case Height(k) => if k > rest then k else rest
  }

  /** Where the chain stood at an event; a pause has no position. */
  function EventPosition(event: PollerEvent, sched: Schedule): seq<nat> {
    if event.PauseDetected? then [] else [sched.Pos(event.blockHeight)]
  }

  /** The positions of the phase and batch events, in the order sent. */
  function Positions(events: seq<PollerEvent>, sched: Schedule): seq<nat> {
    if events == [] then []
    else Positions(events[..|events| - 1], sched) + EventPosition(events[|events| - 1], sched)
  }

  predicate StrictlyIncreasing(s: seq<nat>) {
    forall i, j :: 0 <= i < j < |s| ==> s[i] < s[j]
  }

  /** The event tells the batch and phase of the block it names. */
  predicate TruthfulEvent(event: PollerEvent, sched: Schedule) {
    match event
    case PauseDetected => true
    case NewBatch(b, h) => b == sched.batchAt(h)
    case PhaseChanged(b, p, h) => b == sched.batchAt(h) && p == sched.phaseAt(h)
  }

  predicate Truthful(events: seq<PollerEvent>, sched: Schedule) {
    forall k :: 0 <= k < |events| ==> TruthfulEvent(events[k], sched)
  }

  lemma TruthfulAppend(a: seq<PollerEvent>, b: seq<PollerEvent>, sched: Schedule)
    requires Truthful(a, sched) && Truthful(b, sched)
    ensures Truthful(a + b, sched)
  {
  }

  lemma PositionsSnoc(events: seq<PollerEvent>, sent: seq<PollerEvent>, sched: Schedule)
    requires |sent| <= 1
    ensures Positions(events + sent, sched) == Positions(events, sched) + Positions(sent, sched) {
    if sent == [] {
      assert events + sent == events;
    } else {
      assert (events + sent)[..|events|] == events;
      assert sent[..0] == [];
    }
  }

  function Path(h: nat, events: seq<PollerEvent>, sched: Schedule): seq<nat> {
    [sched.Pos(h)] + Positions(events, sched)
  }

  /** The poller stands at the batch and phase of `top`; its events tell the truth, their positions strictly
      increase from the start, and the last one is where the poller stands. */
  ghost predicate OnTrack(h: nat, t: Trace, top: nat, sched: Schedule)
  {
    && t.state.lastBlock == top
    && t.state.lastBatchId == sched.batchAt(top)
    && t.state.lastPhase == sched.phaseAt(top)
    && Truthful(t.events, sched)
    && StrictlyIncreasing(Path(h, t.events, sched))
    && Path(h, t.events, sched)[|Path(h, t.events, sched)| - 1] == sched.Pos(top)
  }

  lemma TurnOnTrack(h: nat, t: Trace, poll: Poll, sched: Schedule, threshold: nat)
    requires sched.Monotone() && OnTrack(h, t, t.state.lastBlock, sched)
    ensures var (state, sent) := Turn(t.state, poll, sched, threshold);
      && state.lastBlock == (if poll.Height? && poll.h > t.state.lastBlock then poll.h else t.state.lastBlock)
      && OnTrack(h, Trace(state, t.events + sent), state.lastBlock, sched)
  {
    var (state, sent) := Turn(t.state, poll, sched, threshold);
    SentPositions(t.state, poll, sched, threshold);
    TruthfulAppend(t.events, sent, sched);
    PositionsSnoc(t.events, sent, sched);
    PathTurn(Path(h, t.events, sched), sched.Pos(t.state.lastBlock), sched.Pos(state.lastBlock), Positions(sent, sched));
    PathAppend(h, t.events, sent, sched);
  }

  lemma PathAppend(h: nat, events: seq<PollerEvent>, sent: seq<PollerEvent>, sched: Schedule)
    requires Positions(events + sent, sched) == Positions(events, sched) + Positions(sent, sched)
    ensures Path(h, events + sent, sched) == Path(h, events, sched) + Positions(sent, sched)
  {
  }

  /** A path that ends at `was` is continued to `now` by the change of position, if any. */
  lemma PathTurn(path: seq<nat>, was: nat, now: nat, more: seq<nat>)
    requires path != [] && StrictlyIncreasing(path) && path[|path| - 1] == was <= now
    requires more == if now != was then [now] else []
    ensures StrictlyIncreasing(path + more) && (path + more)[|path + more| - 1] == now
  {
    if now == was { assert path + more == path; }
  }

  /** For any heights with stalls, regressions and failures, the poller is on track at the highest height seen. */
  lemma {:induction false} PollerStream(h: nat, polls: seq<Poll>, sched: Schedule, threshold: nat)
    requires sched.Monotone()
    ensures OnTrack(h, Run(Initial(h, sched), polls, sched, threshold), Highest(h, polls), sched) {
    if polls != [] {
      var front := polls[..|polls| - 1];
      PollerStream(h, front, sched, threshold);
      TurnOnTrack(h, Run(Initial(h, sched), front, sched, threshold), polls[|polls| - 1], sched, threshold);
    }
  }

  /** A turn sends a position exactly when the position changed. */
  lemma SentPositions(s: PollerState, poll: Poll, sched: Schedule, threshold: nat)
    requires sched.Monotone()
    requires s.lastBatchId == sched.batchAt(s.lastBlock) && s.lastPhase == sched.phaseAt(s.lastBlock)
    ensures var (next, sent) := Turn(s, poll, sched, threshold);
      var was, now := sched.Pos(s.lastBlock), sched.Pos(next.lastBlock);
      && |sent| <= 1 && Truthful(sent, sched)
      && Positions(sent, sched) == if now != was then [now] else []
  {
    var (next, sent) := Turn(s, poll, sched, threshold);
    if sent != [] { assert sent[..0] == []; }
  }

  function FailuresAtEnd(polls: seq<Poll>): nat {
    if polls == [] || polls[|polls| - 1].Height? then 0 else 1 + FailuresAtEnd(polls[..|polls| - 1])
  }

  /** A pause is reported by exactly those polls that end a run of at least `threshold` failures. */
  lemma {:induction false} PauseExact(h: nat, polls: seq<Poll>, sched: Schedule, threshold: nat)
    ensures Run(Initial(h, sched), polls, sched, threshold).state.stallCount == FailuresAtEnd(polls)
    ensures polls != [] ==>
      var front := Run(Initial(h, sched), polls[..|polls| - 1], sched, threshold);
      var all := Run(Initial(h, sched), polls, sched, threshold);
      all.events == front.events + [PauseDetected] <==> FailuresAtEnd(polls) > 0 && FailuresAtEnd(polls) >= threshold
  {
    if polls != [] {
      PauseExact(h, polls[..|polls| - 1], sched, threshold);
      var front := Run(Initial(h, sched), polls[..|polls| - 1], sched, threshold);
      var (state, sent) := Turn(front.state, polls[|polls| - 1], sched, threshold);
      assert forall e :: front.events + sent == front.events + [e] ==> sent == [e] by {
        assert (front.events + sent)[|front.events|..] == sent;
        assert forall e :: (front.events + [e])[|front.events|..] == [e];
      }
    }
  }

  /** Which event a poll sends: a new batch when the highest block enters another batch, a phase change when it enters another
      phase of the same batch, a pause after enough failures, and else none. */
  lemma EventsExactly(h: nat, polls: seq<Poll>, sched: Schedule, threshold: nat)
    requires sched.Monotone() && polls != []
    ensures var front, top, was := polls[..|polls| - 1], Highest(h, polls), Highest(h, polls[..|polls| - 1]);
      var sent := if polls[|polls| - 1].Failure? then
                    if FailuresAtEnd(polls) >= threshold then [PauseDetected] else []
                  else if sched.batchAt(top) != sched.batchAt(was) then [NewBatch(sched.batchAt(top), top)]
                  else if sched.phaseAt(top) != sched.phaseAt(was) then [PhaseChanged(sched.batchAt(top), sched.phaseAt(top), top)]
                  else [];
      Run(Initial(h, sched), polls, sched, threshold).events == Run(Initial(h, sched), front, sched, threshold).events + sent
  {
    PollerStream(h, polls[..|polls| - 1], sched, threshold);
    PauseExact(h, polls[..|polls| - 1], sched, threshold);
  }

  /** With the schedule of the chain the stream is what the batch arithmetic says of the highest block. */
  lemma ChainPollerStream(h: nat, polls: seq<Poll>, epoch: BatchEpoch, params: BatchParams, threshold: nat)
    requires WellTimed(params)
    ensures var sched := ChainSchedule(epoch, params);
      var t, top := Run(Initial(h, sched), polls, sched, threshold), Highest(h, polls);
      && t.state.lastBatchId == ComputeBatchId(top, epoch, params)
      && t.state.lastPhase == ComputePhase(top, epoch, params)
      && StrictlyIncreasing([Position(h, epoch, params)] + Positions(t.events, sched))
  {
    ChainScheduleMonotone(epoch, params);
    PollerStream(h, polls, ChainSchedule(epoch, params), threshold);
  }
}
