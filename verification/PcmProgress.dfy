/** Whole-run theorems about the PCM streams: conservation, isolation, prompt stopping, progress. */
module PcmProgress {
  import opened Wrappers
  import opened PcmSchedule
  import opened PcmProtocol
  import opened PcmSafety

  // ----- Conservation -----

  /** No interleaving drains an empty queue, and every reachable state satisfies the invariant. */
  lemma {:induction false} RunsKeepInv(sys: System, steps: seq<Step>)
    requires Inv(sys)
    ensures Execute(sys, steps) != Failure(Trapped)
    ensures Execute(sys, steps).Success? ==> Inv(Execute(sys, steps).value)
    decreases |steps|
  {
    hide Inv, Enabled, Next, Traps;
    if steps != [] {
      RunsKeepInv(sys, steps[..|steps| - 1]);
      var before := Execute(sys, steps[..|steps| - 1]);
      if before.Success? && Enabled(before.value, steps[|steps| - 1]) {
        StepKeepsInv(before.value, steps[|steps| - 1]);
      }
    }
  }

  lemma ReachableInv(sys: System)
    requires Reachable(sys)
    ensures Inv(sys)
  {
    var steps :| Execute(Start(), steps) == Success(sys);
    RunsKeepInv(Start(), steps);
  }

  /** While a stream is wanted and unstopped, its free permits and its held, posted and queued blocks add up. */
  lemma PermitsAreConserved(sys: System, s: StreamId)
    requires Reachable(sys) && sys.active == Some(s)
    ensures s < |sys.streams| && sys.playback.schedule.Some?
    ensures var stream, queued := sys.streams[s], sys.playback.schedule.value.queued;
            && (!stream.control.stopped ==>
                  stream.control.permits + stream.producer.Held() + |stream.inFlight| + queued
                  == stream.plan.maximumQueuedBlocks)
            && stream.producer.Held() + |stream.inFlight| + queued <= stream.plan.maximumQueuedBlocks
            && queued == |sys.playback.buffers|
  {
    ReachableInv(sys);
  }

  /** Every block posted for the wanted stream finds room in the schedule. */
  lemma PostedBlocksAreNeverRefused(sys: System, s: StreamId, block: nat, engineStarts: bool)
    requires Reachable(sys) && sys.active == Some(s)
    requires Enabled(sys, Deliver(s, block, engineStarts))
    ensures sys.playback.MayEnqueue(s)
    ensures sys.playback.EnqueueError(Token(s, block), engineStarts) != Some(StreamScheduling)
  {
    ReachableInv(sys);
    LiveBlockIsAdmitted(sys, s, block);
  }

  /** A stream that ends as complete has played every block of its plan and holds nothing. */
  lemma CompletionMeansAllPlayed(sys: System, token: Token)
    requires Reachable(sys) && sys.active.Some? && Enabled(sys, Callback(token))
    requires sys.playback.CountsDrain(token) && sys.playback.schedule.value.queued > 0
    requires sys.playback.schedule.value.AfterDrain().Verdict() == Complete
    ensures !Traps(sys, Callback(token))
    ensures var after := Next(sys, Callback(token));
            && after.active.None?
            && after.playback.buffers == {}
            && after.playback.schedule.value.drained == after.playback.schedule.value.plan.totalBlocks
            && after.streams[token.stream].inFlight == {}
            && after.streams[token.stream].producer == Finished(after.playback.schedule.value.plan.totalBlocks)
  {
    ReachableInv(sys);
    assert |sys.playback.buffers - {token}| == |sys.playback.buffers| - 1;
    DrainedGoesOn(sys, token);
  }

  // ----- Isolation -----

  predicate Concerns(step: Step, s: StreamId) {
    match step
    case Begin(_) => true
    case Cancel => true
    case Take(t) => t == s
    case SeeStop(t) => t == s
    case CheckFlag(t) => t == s
    case Post(t) => t == s
    case Fail(t) => t == s
    case Deliver(t, _, _) => t == s
    case DeliverError(t) => t == s
    case Callback(token) => token.stream == s
  }

  /** Late tasks, errors and callbacks of a replaced stream leave its successor and the player alone. */
  lemma StaleStepsAreInert(sys: System, s: StreamId, step: Step)
    requires Reachable(sys) && sys.playback.generation == Some(s)
    requires Enabled(sys, step) && !Concerns(step, s)
    ensures !Traps(sys, step)
    ensures var after := Next(sys, step);
            && after.playback == sys.playback
            && after.active == sys.active
            && |after.streams| == |sys.streams|
            && s < |sys.streams|
            && after.streams[s] == sys.streams[s]
  {
    ReachableInv(sys);
    StepKeepsInv(sys, step);
  }

  // ----- Stopping -----

  /** Blocks a stream has posted or is bound to post even if it is stopped now. */
  function Committed(stream: Stream): nat {
    stream.producer.block + if stream.producer.Holding? then 1 else 0
  }

  /** A stopped stream stays stopped and commits to nothing more. */
  predicate StaysStopped(before: seq<Stream>, after: seq<Stream>, s: StreamId)
    requires s < |before|
  {
    && s < |after|
    && (before[s].control.stopped ==> after[s].control.stopped && Committed(after[s]) <= Committed(before[s]))
  }

  lemma StopCurrentStaysStopped(sys: System, s: StreamId)
    requires s < |sys.streams|
    ensures StaysStopped(sys.streams, StopCurrent(sys), s) && |StopCurrent(sys)| == |sys.streams|
  {
  }

  lemma DeliveryAfterStop(sys: System, t: StreamId, block: nat, engineStarts: bool, s: StreamId)
    requires Enabled(sys, Deliver(t, block, engineStarts)) && s < |sys.streams|
    ensures StaysStopped(sys.streams, DeliverBlock(sys, t, block, engineStarts).streams, s)
  {
    hide StopCurrent;
    var streams := sys.streams[t := sys.streams[t].(inFlight := sys.streams[t].inFlight - {block})];
    var token := Token(t, block);
    StopCurrentStaysStopped(
      System(streams, sys.playback.Enqueue(token, engineStarts), sys.callbacks + {token}, sys.active), s);
    StopCurrentStaysStopped(
      System(streams, sys.playback.Enqueue(token, engineStarts), sys.callbacks, sys.active), s);
  }

  lemma StepAfterStop(sys: System, step: Step, s: StreamId)
    requires Enabled(sys, step) && !Traps(sys, step)
    requires s < |sys.streams|
    ensures StaysStopped(sys.streams, Next(sys, step).streams, s)
  {
    hide StopCurrent, DeliverBlock;
    StopCurrentStaysStopped(sys, s);
    match step {
      case Begin(_) => StopCurrentStaysStopped(CancelRun(sys), s);
      case Cancel =>
      case Deliver(t, block, engineStarts) => DeliveryAfterStop(sys, t, block, engineStarts, s);
      case DeliverError(t) =>
        StopCurrentStaysStopped(sys.(streams := sys.streams[t := sys.streams[t].(errorPending := false)]), s);
      case Callback(token) =>
        if sys.playback.CountsDrain(token) && token.stream < |sys.streams| {
          var released := sys.streams[token.stream].(control := sys.streams[token.stream].control.Release());
          StopCurrentStaysStopped(System(sys.streams[token.stream := released], sys.playback.DidDrain(token),
                                         sys.callbacks - {token}, sys.active), s);
        }
      case _ =>
    }
  }

  /** Once a stream is stopped no check of its flag grants a permit: at most the block in hand is still posted. */
  lemma {:induction false} NoAcquisitionAfterStop(sys: System, steps: seq<Step>, s: StreamId)
    requires Inv(sys) && s < |sys.streams| && sys.streams[s].control.stopped
    requires Execute(sys, steps).Success?
    ensures var after := Execute(sys, steps).value;
            && s < |after.streams|
            && after.streams[s].control.stopped
            && Committed(after.streams[s]) <= Committed(sys.streams[s])
    decreases |steps|
  {
    hide Inv, Enabled, Next, Traps;
    if steps != [] {
      var front, last := steps[..|steps| - 1], steps[|steps| - 1];
      NoAcquisitionAfterStop(sys, front, s);
      RunsKeepInv(sys, front);
      StepAfterStop(Execute(sys, front).value, last, s);
    }
  }

  // ----- Progress -----

  /** Steps a stream still has ahead of it, weighted so that every step of its own lowers the sum. */
  function StreamWork(stream: Stream): int {
    var left := 6 * (stream.plan.totalBlocks - stream.producer.block);
    (match stream.producer
     case Waiting(_) => left + 1
     case Checking(_) => left
     case Holding(_) => left - 1
     case Finished(_) => 0)
    + 3 * |stream.inFlight| + if stream.errorPending then 1 else 0
  }

  function TotalWork(streams: seq<Stream>): int {
    if streams == [] then 0 else TotalWork(streams[..|streams| - 1]) + StreamWork(streams[|streams| - 1])
  }

  function Work(sys: System): int {
    TotalWork(sys.streams) + |sys.callbacks|
  }

  lemma {:induction false} TotalWorkUpdate(streams: seq<Stream>, s: StreamId, stream: Stream)
    requires s < |streams|
    ensures TotalWork(streams[s := stream]) == TotalWork(streams) - StreamWork(streams[s]) + StreamWork(stream)
    decreases |streams|
  {
    hide StreamWork;
    var last := |streams| - 1;
    var updated := streams[s := stream];
    if s < last {
      TotalWorkUpdate(streams[..last], s, stream);
      assert updated[..last] == streams[..last][s := stream];
    } else {
      assert updated[..last] == streams[..last];
    }
  }

  lemma {:induction false} WorkIsNatural(streams: seq<Stream>)
    requires forall s :: 0 <= s < |streams| ==> StreamOk(streams[s])
    ensures TotalWork(streams) >= 0
    decreases |streams|
  {
    if streams != [] {
      WorkIsNatural(streams[..|streams| - 1]);
    }
  }

  /** Stopping a control is not work done. */
  lemma StopKeepsWork(sys: System)
    ensures TotalWork(StopCurrent(sys)) == TotalWork(sys.streams)
  {
    if sys.playback.generation.Some? && sys.playback.generation.value < |sys.streams| {
      var g := sys.playback.generation.value;
      TotalWorkUpdate(sys.streams, g, sys.streams[g].(control := sys.streams[g].control.Stop()));
    }
  }

  lemma ProducerStepLowersWork(sys: System, step: Step, s: StreamId)
    requires Inv(sys) && Enabled(sys, step)
    requires step == Take(s) || step == SeeStop(s) || step == CheckFlag(s) || step == Post(s) || step == Fail(s)
    ensures Work(Next(sys, step)) < Work(sys)
  {
    var stream := sys.streams[s];
    var after := Next(sys, step).streams[s];
    assert StreamOk(stream);
    if step.Post? {
      assert stream.producer.block !in stream.inFlight;
      assert |stream.inFlight + {stream.producer.block}| == |stream.inFlight| + 1;
    }
    assert StreamWork(after) < StreamWork(stream);
    assert Next(sys, step).streams == sys.streams[s := after];
    TotalWorkUpdate(sys.streams, s, after);
  }

  lemma DeliveryLowersWork(sys: System, s: StreamId, block: nat, engineStarts: bool)
    requires Inv(sys) && Enabled(sys, Deliver(s, block, engineStarts))
    ensures Work(DeliverBlock(sys, s, block, engineStarts)) < Work(sys)
  {
    hide Inv, TotalWork, StopCurrent;
    var stream := sys.streams[s];
    var taken := stream.(inFlight := stream.inFlight - {block});
    assert |taken.inFlight| == |stream.inFlight| - 1;
    TotalWorkUpdate(sys.streams, s, taken);
    var streams := sys.streams[s := taken];
    if sys.active != Some(s) {
      TotalWorkUpdate(streams, s, taken.(control := taken.control.Stop()));
    } else {
      var token := Token(s, block);
      var callbacks := if sys.playback.MayEnqueue(s) then sys.callbacks + {token} else sys.callbacks;
      assert |callbacks| <= |sys.callbacks| + 1;
      hide Playback.Enqueue, Playback.MayEnqueue, Playback.EnqueueError;
      StopKeepsWork(System(streams, sys.playback.Enqueue(token, engineStarts), callbacks, sys.active));
    }
  }

  lemma DeliverErrorLowersWork(sys: System, s: StreamId)
    requires Inv(sys) && Enabled(sys, DeliverError(s))
    ensures Work(Next(sys, DeliverError(s))) < Work(sys)
  {
    hide Inv, TotalWork;
    var noted := sys.streams[s].(errorPending := false);
    TotalWorkUpdate(sys.streams, s, noted);
    StopKeepsWork(sys.(streams := sys.streams[s := noted]));
  }

  lemma CallbackLowersWork(sys: System, token: Token)
    requires Inv(sys) && Enabled(sys, Callback(token)) && !Traps(sys, Callback(token))
    ensures Work(HandleCallback(sys, token)) < Work(sys)
  {
    hide Inv, TotalWork;
    assert |sys.callbacks - {token}| == |sys.callbacks| - 1;
    if sys.playback.CountsDrain(token) && token.stream < |sys.streams| {
      var stream := sys.streams[token.stream];
      var released := stream.(control := stream.control.Release());
      TotalWorkUpdate(sys.streams, token.stream, released);
      StopKeepsWork(System(sys.streams[token.stream := released], sys.playback.DidDrain(token),
                           sys.callbacks - {token}, sys.active));
    }
  }

  lemma InternalStepLowersWork(sys: System, step: Step)
    requires Inv(sys) && Enabled(sys, step) && !Traps(sys, step) && step.Internal()
    ensures Work(Next(sys, step)) < Work(sys)
  {
    hide Inv, Work, Enabled;
    match step
    case Take(s) => ProducerStepLowersWork(sys, step, s);
    case SeeStop(s) => ProducerStepLowersWork(sys, step, s);
    case CheckFlag(s) => ProducerStepLowersWork(sys, step, s);
    case Post(s) => ProducerStepLowersWork(sys, step, s);
    case Fail(s) => ProducerStepLowersWork(sys, step, s);
    case Deliver(s, block, engineStarts) => DeliveryLowersWork(sys, s, block, engineStarts);
    case DeliverError(s) => DeliverErrorLowersWork(sys, s);
    case Callback(token) => CallbackLowersWork(sys, token);
  }

  /** Left to itself the machinery stops: a run without new requests is no longer than the work at its start. */
  lemma {:induction false} InternalRunsAreBounded(sys: System, steps: seq<Step>)
    requires Inv(sys) && Execute(sys, steps).Success?
    requires forall step :: step in steps ==> step.Internal()
    ensures |steps| + Work(Execute(sys, steps).value) <= Work(sys)
    ensures |steps| <= Work(sys)
    decreases |steps|
  {
    hide Inv, Enabled, Next, Traps, Work;
    RunsKeepInv(sys, steps);
    if steps != [] {
      var front, last := steps[..|steps| - 1], steps[|steps| - 1];
      InternalRunsAreBounded(sys, front);
      RunsKeepInv(sys, front);
      InternalStepLowersWork(Execute(sys, front).value, last);
    }
    WorkOfInvIsNatural(Execute(sys, steps).value);
  }

  lemma WorkOfInvIsNatural(sys: System)
    requires Inv(sys)
    ensures Work(sys) >= 0
  {
    WorkIsNatural(sys.streams);
  }

  /** Steps in which neither a packet nor the audio engine fails. */
  predicate Benign(step: Step) {
    step.Internal() && !step.Fail? && (step.Deliver? ==> step.engineStarts)
  }

  /** Nothing is left to happen. */
  predicate Quiet(sys: System) {
    && sys.callbacks == {}
    && (forall s :: 0 <= s < |sys.streams| ==>
          sys.streams[s].producer.Finished? && sys.streams[s].inFlight == {} && !sys.streams[s].errorPending)
  }

  lemma {:induction false} FirstUnfinished(streams: seq<Stream>, n: nat) returns (s: StreamId)
    requires n < |streams| && !streams[n].producer.Finished?
    ensures s <= n && !streams[s].producer.Finished?
    ensures forall t :: 0 <= t < s ==> streams[t].producer.Finished?
    decreases n
  {
    if t :| 0 <= t < n && !streams[t].producer.Finished? {
      s := FirstUnfinished(streams, t);
    } else {
      s := n;
    }
  }

  /** Everything posted has been delivered, and the producer at the head of the queue waits for a permit. */
  ghost predicate OnlyPlaybackMoves(sys: System) {
    && (forall s :: 0 <= s < |sys.streams| ==> sys.streams[s].inFlight == {} && !sys.streams[s].errorPending)
    && (forall s: nat :: OnQueue(sys, s) && !sys.streams[s].producer.Finished? ==>
          && sys.streams[s].producer.Waiting?
          && sys.streams[s].control.permits == 0 && !sys.streams[s].control.stopped)
  }

  /** The producer at the head of the queue can move, or else the player has a block to finish. */
  lemma ProducerOrPlayerMoves(sys: System, s: StreamId) returns (step: Step)
    requires Inv(sys) && OnQueue(sys, s) && !sys.streams[s].producer.Finished?
    requires sys.streams[s].inFlight == {}
    ensures Benign(step) && Enabled(sys, step)
    ensures step.Callback? ==>
              && sys.streams[s].producer.Waiting?
              && sys.streams[s].control.permits == 0 && !sys.streams[s].control.stopped
  {
    var stream := sys.streams[s];
    if stream.producer.Checking? {
      step := CheckFlag(s);
    } else if stream.producer.Holding? {
      step := Post(s);
    } else if stream.control.stopped {
      step := SeeStop(s);
    } else if stream.control.permits > 0 {
      step := Take(s);
    } else {
      assert sys.playback.buffers != {};
      var token :| token in sys.playback.buffers;
      step := Callback(token);
    }
  }

  lemma OneHeadOfQueue(sys: System, s: StreamId, t: StreamId)
    requires OnQueue(sys, s) && !sys.streams[s].producer.Finished?
    requires OnQueue(sys, t) && !sys.streams[t].producer.Finished?
    ensures s == t
  {
  }

  lemma HeadOfQueueMoves(sys: System, n: nat) returns (step: Step)
    requires Inv(sys) && n < |sys.streams| && !sys.streams[n].producer.Finished?
    requires forall t :: 0 <= t < |sys.streams| ==> sys.streams[t].inFlight == {} && !sys.streams[t].errorPending
    ensures Benign(step) && Enabled(sys, step)
    ensures step.Callback? ==> OnlyPlaybackMoves(sys)
  {
    hide Inv, Benign, Enabled;
    var s := FirstUnfinished(sys.streams, n);
    assert OnQueue(sys, s) by {
      FirstIsHead(sys, s);
    }
    step := ProducerOrPlayerMoves(sys, s);
    forall t: nat | OnQueue(sys, t) && !sys.streams[t].producer.Finished? ensures t == s {
      OneHeadOfQueue(sys, s, t);
    }
  }

  lemma FirstIsHead(sys: System, s: StreamId)
    requires s < |sys.streams| && forall t :: 0 <= t < s ==> sys.streams[t].producer.Finished?
    ensures OnQueue(sys, s)
  {
  }

  /**
   Nothing gets stuck: as long as anything is left to happen, some step without a failure is enabled,
   and playback need be waited for only when nothing else can move.
   */
  lemma NeverStuck(sys: System) returns (step: Step)
    requires Inv(sys) && !Quiet(sys)
    ensures Benign(step) && Enabled(sys, step)
    ensures step.Callback? ==> OnlyPlaybackMoves(sys)
  {
    if s, b :| 0 <= s < |sys.streams| && b in sys.streams[s].inFlight {
      step := Deliver(s, b, true);
    } else if s :| 0 <= s < |sys.streams| && sys.streams[s].errorPending {
      step := DeliverError(s);
    } else {
      forall s | 0 <= s < |sys.streams| ensures sys.streams[s].inFlight == {} {
        NoneInFlight(sys.streams[s]);
      }
      if n :| 0 <= n < |sys.streams| && !sys.streams[n].producer.Finished? {
        step := HeadOfQueueMoves(sys, n);
      } else {
        var token :| token in sys.callbacks;
        step := Callback(token);
      }
    }
  }

  lemma NoneInFlight(stream: Stream)
    requires forall b :: b !in stream.inFlight
    ensures stream.inFlight == {} && |stream.inFlight| == 0
  {
  }

  /** When everything has happened the stream is over: it completed, drained after a stop, or failed. */
  lemma QuietMeansOver(sys: System)
    requires Reachable(sys) && Quiet(sys)
    ensures sys.active.None? && sys.playback.buffers == {}
  {
    ReachableInv(sys);
    QuietIsInactive(sys);
  }

  /** The current stream either plays already or is still filling its queue. */
  predicate PlayingOrFilling(sys: System, s: StreamId) {
    && s < |sys.streams|
    && sys.playback.generation == Some(s)
    && sys.playback.schedule.Some?
    && (sys.playback.schedule.value.started || (sys.active == Some(s) && !sys.streams[s].control.stopped))
  }

  lemma BenignStepKeepsFilling(sys: System, step: Step, s: StreamId)
    requires Inv(sys) && Enabled(sys, step) && !Traps(sys, step) && Benign(step)
    requires PlayingOrFilling(sys, s)
    ensures PlayingOrFilling(Next(sys, step), s)
  {
    match step
    case Deliver(t, block, _) =>
      if sys.active == Some(t) {
        LiveBlockIsAdmitted(sys, t, block);
      }
    case _ =>
  }

  /** A stream that is playing or filling stays so as long as nothing fails. */
  lemma {:induction false} BenignRunKeepsFilling(sys: System, steps: seq<Step>, s: StreamId)
    requires Inv(sys) && PlayingOrFilling(sys, s) && Execute(sys, steps).Success?
    requires forall step :: step in steps ==> Benign(step)
    ensures PlayingOrFilling(Execute(sys, steps).value, s)
    decreases |steps|
  {
    hide Inv, Enabled, Next, Traps, Benign, PlayingOrFilling;
    if steps != [] {
      var front, last := steps[..|steps| - 1], steps[|steps| - 1];
      BenignRunKeepsFilling(sys, front, s);
      RunsKeepInv(sys, front);
      BenignStepKeepsFilling(Execute(sys, front).value, last, s);
    }
  }

  /** A run without failures that can go no further without one has reached playback. */
  lemma FillingReachesPlayback(sys: System, steps: seq<Step>, s: StreamId)
    requires Inv(sys) && PlayingOrFilling(sys, s) && Execute(sys, steps).Success?
    requires forall step :: step in steps ==> Benign(step)
    requires forall step :: Benign(step) ==> !Enabled(Execute(sys, steps).value, step)
    ensures Execute(sys, steps).value.playback.schedule.Some?
    ensures Execute(sys, steps).value.playback.schedule.value.started
  {
    hide Inv, Enabled, Next, Traps, Quiet, Benign;
    var after := Execute(sys, steps).value;
    BenignRunKeepsFilling(sys, steps, s);
    RunsKeepInv(sys, steps);
    if Quiet(after) {
      QuietIsInactive(after);
    } else {
      var step := NeverStuck(after);
    }
  }

  /** Such a run exists from every state that is playing or filling: prefill is always within reach. */
  lemma {:induction false} PlaybackIsReached(sys: System, s: StreamId) returns (steps: seq<Step>)
    requires Inv(sys) && PlayingOrFilling(sys, s)
    ensures (forall step :: step in steps ==> Benign(step)) && |steps| <= Work(sys)
    ensures Execute(sys, steps).Success?
    ensures PlayingOrFilling(Execute(sys, steps).value, s)
    ensures Execute(sys, steps).value.playback.schedule.value.started
    decreases Work(sys)
  {
    hide Inv, Enabled, Next, Traps, Quiet, Benign, Work;
    WorkOfInvIsNatural(sys);
    if Quiet(sys) {
      QuietIsInactive(sys);
      steps := [];
    } else {
      var step := NeverStuck(sys);
      StepKeepsInv(sys, step);
      BenignIsInternal(step);
      BenignStepKeepsFilling(sys, step, s);
      InternalStepLowersWork(sys, step);
      var rest := PlaybackIsReached(Next(sys, step), s);
      FirstStep(sys, step, rest);
      steps := [step] + rest;
    }
  }

  lemma BenignIsInternal(step: Step)
    requires Benign(step)
    ensures step.Internal()
  {
  }

  /** A run may be taken apart at its first step. */
  lemma {:induction false} FirstStep(sys: System, step: Step, rest: seq<Step>)
    requires Enabled(sys, step) && !Traps(sys, step)
    ensures Execute(sys, [step] + rest) == Execute(Next(sys, step), rest)
    decreases |rest|
  {
    hide Enabled, Next, Traps;
    var whole := [step] + rest;
    if rest == [] {
      assert whole[..0] == [] && whole == [step];
    } else {
      FirstStep(sys, step, rest[..|rest| - 1]);
      assert whole[..|whole| - 1] == [step] + rest[..|rest| - 1];
    }
  }

  lemma QuietIsInactive(sys: System)
    requires Inv(sys) && Quiet(sys)
    ensures sys.active.None? && sys.playback.buffers == {}
  {
  }
}
