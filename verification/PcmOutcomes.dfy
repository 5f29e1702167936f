/** What the events of a wanted stream lead to, counted in blocks, and which plans can be played to their end. */
module PcmOutcomes {
  import opened Wrappers
  import opened PcmSchedule
  import opened PcmProtocol
  import opened PcmSafety
  import opened PcmProgress

  // ----- Starting -----

  /** The block is queued and nothing else about the stream changes but whether it plays. */
  predicate Queues(before: Schedule, after: Schedule) {
    && after.plan == before.plan && after.drained == before.drained && after.stopping == before.stopping
    && after.queued == before.queued + 1 && after.scheduled == before.scheduled + 1
  }

  /**
   Playback starts with the delivery that fills the queue to its bound, or that brings the last block
   of a plan shorter than the queue; an engine that does not start then ends the stream.
   */
  lemma PlaybackStartsWhenPrefilled(sys: System, s: StreamId, block: nat, engineStarts: bool)
    requires Reachable(sys) && sys.active == Some(s) && Enabled(sys, Deliver(s, block, engineStarts))
    requires sys.playback.schedule.Some? && !sys.playback.schedule.value.started
    ensures sys.playback.schedule.value.plan == sys.streams[s].plan
    ensures var before, after := sys.playback.schedule.value, Next(sys, Deliver(s, block, engineStarts));
            var full := before.queued + 1 == before.plan.totalBlocks
                        || before.queued + 1 == before.plan.maximumQueuedBlocks;
            && after.playback.schedule.Some? && Queues(before, after.playback.schedule.value)
            && after.playback.schedule.value.started == (full && engineStarts)
            && (if full && !engineStarts
                then after.active.None? && after.playback.buffers == {} && after.streams[s].control.stopped
                else after.active == Some(s)
                     && after.playback.buffers == sys.playback.buffers + {Token(s, block)}
                     && Token(s, block) in after.callbacks
                     && after.streams[s].control == sys.streams[s].control)
  {
    ReachableInv(sys);
    LiveBlockIsAdmitted(sys, s, block);
  }

  /** A block that arrives during playback is queued behind the others. */
  lemma PlayingStreamQueues(sys: System, s: StreamId, block: nat, engineStarts: bool)
    requires Reachable(sys) && sys.active == Some(s) && Enabled(sys, Deliver(s, block, engineStarts))
    requires sys.playback.schedule.Some? && sys.playback.schedule.value.started
    ensures var before, after := sys.playback.schedule.value, Next(sys, Deliver(s, block, engineStarts));
            && after.playback.schedule.Some? && Queues(before, after.playback.schedule.value)
            && after.playback.schedule.value.started && after.active == Some(s)
            && after.playback.buffers == sys.playback.buffers + {Token(s, block)}
            && Token(s, block) in after.callbacks
  {
    ReachableInv(sys);
    LiveBlockIsAdmitted(sys, s, block);
  }

  // ----- Draining -----

  /**
   A played block of the wanted stream returns its permit. The stream is complete with the last block
   of its plan, starves when that leaves nothing queued before, and goes on otherwise.
   */
  predicate PlayedBlock(sys: System, after: System, s: StreamId, token: Token)
    requires s < |sys.streams| && sys.playback.schedule.Some?
  {
    && s < |after.streams| && after.playback.schedule.Some? && after.playback.generation == Some(s)
    && var before, schedule, permits :=
         sys.playback.schedule.value, after.playback.schedule.value, sys.streams[s].control.permits + 1;
    && schedule.plan == before.plan && after.streams[s].plan == sys.streams[s].plan
    && schedule.drained == before.drained + 1 && schedule.queued == before.queued - 1
    && after.callbacks == sys.callbacks - {token}
    && (if before.drained + 1 == before.plan.totalBlocks then
          && after.active.None? && after.playback.buffers == {}
          && after.streams[s].control == sys.streams[s].control.(permits := permits)
        else if before.queued == 1 then
          after.active.None? && after.playback.buffers == {} && after.streams[s].control.stopped
        else
          && after.active == Some(s) && after.playback.buffers == sys.playback.buffers - {token}
          && after.streams[s].control == sys.streams[s].control.(permits := permits))
  }

  lemma LiveCallback(sys: System, s: StreamId, token: Token)
    requires Inv(sys) && sys.active == Some(s)
    requires Enabled(sys, Callback(token)) && token in sys.playback.buffers
    ensures s < |sys.streams| && sys.playback.schedule.Some?
    ensures sys.playback.schedule.value.plan == sys.streams[s].plan
    ensures token.stream == s && !Traps(sys, Callback(token))
    ensures PlayedBlock(sys, Next(sys, Callback(token)), s, token)
  {
    assert |sys.playback.buffers - {token}| == |sys.playback.buffers| - 1;
    hide StreamsOk;
  }

  lemma PlayedBlockDecides(sys: System, s: StreamId, token: Token)
    requires Reachable(sys) && sys.active == Some(s)
    requires Enabled(sys, Callback(token)) && token in sys.playback.buffers
    ensures s < |sys.streams| && sys.playback.schedule.Some?
    ensures sys.playback.schedule.value.plan == sys.streams[s].plan
    ensures token.stream == s && !Traps(sys, Callback(token))
    ensures PlayedBlock(sys, Next(sys, Callback(token)), s, token)
  {
    hide Reachable, Inv, Enabled, Next, Traps;
    ReachableInv(sys);
    WantedIsInRange(sys);
    LiveCallback(sys, s, token);
  }

  lemma WantedIsInRange(sys: System)
    requires Inv(sys) && sys.active.Some?
    ensures sys.active.value < |sys.streams|
  {
  }

  /** Withdrawing a stream keeps what it holds exactly when it is playing, and stops its producer. */
  lemma CancelKeepsThePlayingQueue(sys: System, s: StreamId)
    requires Reachable(sys) && sys.active == Some(s) && sys.playback.schedule.Some?
    ensures var after := Next(sys, Cancel);
            && after.active.None? && s < |after.streams| && after.streams[s].control.stopped
            && after.playback.schedule.Some? && after.playback.schedule.value.stopping
            && after.callbacks == sys.callbacks
            && after.playback.buffers == if sys.playback.schedule.value.started then sys.playback.buffers else {}
  {
    ReachableInv(sys);
  }

  /** A withdrawn stream plays every block it still holds, and has stopped with the last of them. */
  lemma WithdrawnStreamPlaysOut(sys: System, token: Token)
    requires Reachable(sys) && sys.active.None? && token in sys.playback.buffers
    ensures Enabled(sys, Callback(token)) && !Traps(sys, Callback(token)) && sys.playback.schedule.Some?
    ensures var before, after := sys.playback.schedule.value, Next(sys, Callback(token));
            && after.active.None? && after.playback.schedule.Some?
            && after.playback.schedule.value.drained == before.drained + 1
            && after.playback.buffers == sys.playback.buffers - {token}
            && after.playback.schedule.value.Verdict()
               == if sys.playback.buffers == {token} then Stopped else AwaitingRefill
  {
    ReachableInv(sys);
    assert |sys.playback.buffers - {token}| == |sys.playback.buffers| - 1;
    assert sys.playback.buffers - {token} == {} <==> sys.playback.buffers == {token};
    CallbackKeepsInv(sys, token);
  }

  /** A block of a stream that is no longer wanted is dropped, and its producer told to stop. */
  lemma UnwantedBlockIsDropped(sys: System, s: StreamId, block: nat, engineStarts: bool)
    requires Reachable(sys) && sys.active != Some(s) && Enabled(sys, Deliver(s, block, engineStarts))
    ensures var after := Next(sys, Deliver(s, block, engineStarts));
            && after.playback == sys.playback && after.callbacks == sys.callbacks && after.active == sys.active
            && s < |after.streams| && after.streams[s].control.stopped
            && after.streams[s].inFlight == sys.streams[s].inFlight - {block}
  {
  }

  /** A packet that failed ends its stream if it is still wanted, and otherwise changes nothing. */
  lemma FailureEndsTheWantedStream(sys: System, s: StreamId)
    requires Reachable(sys) && Enabled(sys, DeliverError(s))
    ensures var after := Next(sys, DeliverError(s));
            && s < |after.streams| && !after.streams[s].errorPending && after.streams[s].control.stopped
            && (if sys.active == Some(s) then after.active.None? && after.playback.buffers == {}
                else after.active == sys.active && after.playback == sys.playback)
  {
    ReachableInv(sys);
  }

  /** A new run is wanted, empty and alone: the player holds nothing of the old one, whose producer is stopped. */
  lemma BeginStartsAfresh(sys: System, plan: Plan)
    requires Reachable(sys) && plan.Valid()
    ensures var after, id := Next(sys, Begin(plan)), |sys.streams|;
            && after.active == Some(id) && |after.streams| == id + 1 && after.streams[id] == NewStream(plan)
            && after.playback == Playback(Some(id), Some(NewSchedule(plan)), {})
            && (forall s :: 0 <= s < id ==> after.streams[s].control.stopped || after.streams[s].producer.Finished?)
  {
    hide Inv, Next, Reachable;
    ReachableInv(sys);
    StepKeepsInv(sys, Begin(plan));
    FreshRun(sys, plan);
    OthersAreRetired(Next(sys, Begin(plan)));
  }

  lemma FreshRun(sys: System, plan: Plan)
    requires Inv(sys) && plan.Valid()
    ensures var after, id := Next(sys, Begin(plan)), |sys.streams|;
            && after.active == Some(id) && |after.streams| == id + 1 && after.streams[id] == NewStream(plan)
            && after.playback == Playback(Some(id), Some(NewSchedule(plan)), {})
  {
    hide Inv;
  }

  lemma OthersAreRetired(sys: System)
    requires Inv(sys)
    ensures forall s :: 0 <= s < |sys.streams| && sys.active != Some(s) ==> Retired(sys.streams[s])
  {
  }

  // ----- The schedule on its own -----

  datatype Operation = Reserving | Draining | Stopping | Starting

  /** Whatever a caller does, in any order; an operation whose precondition fails is not performed. */
  function Perform(schedule: Schedule, operations: seq<Operation>): Schedule
    decreases |operations|
  {
    if operations == [] then schedule
    else
      var before, last := Perform(schedule, operations[..|operations| - 1]), operations[|operations| - 1];
      match last
      case Reserving => before.Reserve()
      case Draining => if before.queued > 0 then before.AfterDrain() else before
      case Stopping => before.(stopping := true)
      case Starting => if before.Ready() then before.(started := true) else before
  }

  /** No caller can make a schedule exceed its plan or its queue, lose a block, or reserve after a stop. */
  lemma {:induction false} ScheduleKeepsItsBounds(plan: Plan, operations: seq<Operation>)
    ensures var schedule := Perform(NewSchedule(plan), operations);
            && schedule.plan == plan
            && schedule.queued <= plan.maximumQueuedBlocks
            && schedule.scheduled == schedule.drained + schedule.queued <= plan.totalBlocks
            && (schedule.stopping ==> schedule.Reserve() == schedule)
            && (schedule.Reserve() == schedule ==>
                  schedule.stopping || schedule.scheduled == plan.totalBlocks
                  || schedule.queued == plan.maximumQueuedBlocks)
    decreases |operations|
  {
    if operations != [] {
      ScheduleKeepsItsBounds(plan, operations[..|operations| - 1]);
    }
  }

  // ----- Playing to the end -----

  /** The user wants the stream and nothing has stopped it. */
  predicate Wanted(sys: System, s: StreamId) {
    sys.active == Some(s) && s < |sys.streams| && !sys.streams[s].control.stopped
  }

  /** Every block of the plan was played, and nothing ended the stream before. */
  predicate PlayedToTheEnd(sys: System, s: StreamId) {
    && sys.active.None? && s < |sys.streams| && sys.playback.generation == Some(s)
    && sys.playback.schedule.Some?
    && sys.playback.schedule.value.drained == sys.playback.schedule.value.plan.totalBlocks
  }

  /** One block, or room to queue the next one while one plays. */
  predicate Playable(plan: Plan) {
    plan.totalBlocks == 1 || plan.maximumQueuedBlocks >= 2
  }

  /** When nothing but playback can move, the queue is full or holds all that is left of the plan. */
  lemma WaitingQueueIsFull(sys: System, s: StreamId)
    requires Inv(sys) && Wanted(sys, s) && OnlyPlaybackMoves(sys)
    ensures sys.playback.schedule.Some?
    ensures var schedule := sys.playback.schedule.value;
            && schedule.drained < schedule.plan.totalBlocks
            && (|| schedule.queued == schedule.plan.maximumQueuedBlocks
                || schedule.drained + schedule.queued == schedule.plan.totalBlocks)
  {
    if !sys.streams[s].producer.Finished? {
      var u := FirstUnfinished(sys.streams, s);
      assert OnQueue(sys, u);
      assert u != s ==> Retired(sys.streams[u]);
    }
  }

  /** The stream is still wanted with its plan, or has been played to its end. */
  predicate GoesOn(before: System, after: System, s: StreamId)
    requires s < |before.streams|
  {
    || (Wanted(after, s) && after.streams[s].plan == before.streams[s].plan)
    || PlayedToTheEnd(after, s)
  }

  lemma PatientCallbackGoesOn(sys: System, token: Token, s: StreamId)
    requires Inv(sys) && Wanted(sys, s) && Playable(sys.streams[s].plan)
    requires Enabled(sys, Callback(token)) && !Traps(sys, Callback(token)) && OnlyPlaybackMoves(sys)
    ensures GoesOn(sys, Next(sys, Callback(token)), s)
  {
    if token in sys.playback.buffers {
      hide Inv, Enabled, Next, Traps, OnlyPlaybackMoves;
      WaitingQueueIsFull(sys, s);
      LiveCallback(sys, s, token);
    } else {
      hide Inv, OnlyPlaybackMoves;
    }
  }

  lemma DeliveryGoesOn(sys: System, t: StreamId, block: nat, s: StreamId)
    requires Inv(sys) && Wanted(sys, s) && Enabled(sys, Deliver(t, block, true))
    ensures GoesOn(sys, Next(sys, Deliver(t, block, true)), s)
  {
    if t == s {
      LiveBlockIsAdmitted(sys, s, block);
    }
    hide Inv;
  }

  lemma OtherStepGoesOn(sys: System, step: Step, s: StreamId)
    requires Inv(sys) && Wanted(sys, s) && Benign(step) && Enabled(sys, step) && !Traps(sys, step)
    requires !step.Callback? && !step.Deliver?
    ensures GoesOn(sys, Next(sys, step), s)
  {
    hide PlaybackOk, LiveOk;
  }

  /** A run that waits for playback only when nothing else can move never lets the stream starve. */
  lemma PatientStepGoesOn(sys: System, step: Step, s: StreamId)
    requires Inv(sys) && Wanted(sys, s) && Playable(sys.streams[s].plan)
    requires Benign(step) && Enabled(sys, step) && !Traps(sys, step)
    requires step.Callback? ==> OnlyPlaybackMoves(sys)
    ensures GoesOn(sys, Next(sys, step), s)
  {
    hide Inv, GoesOn, OnlyPlaybackMoves, Next, Traps, Enabled;
    match step
    case Callback(token) => PatientCallbackGoesOn(sys, token, s);
    case Deliver(t, block, _) => DeliveryGoesOn(sys, t, block, s);
    case _ => OtherStepGoesOn(sys, step, s);
  }

  /** From every state of a wanted stream with a playable plan, a run without failures plays it to the end. */
  lemma {:induction false} EndIsReached(sys: System, s: StreamId) returns (steps: seq<Step>)
    requires Inv(sys) && Wanted(sys, s) && Playable(sys.streams[s].plan)
    ensures (forall step :: step in steps ==> Benign(step)) && |steps| <= Work(sys)
    ensures Execute(sys, steps).Success? && PlayedToTheEnd(Execute(sys, steps).value, s)
    decreases Work(sys)
  {
    hide Inv, Enabled, Next, Traps, Quiet, Benign, Work, OnlyPlaybackMoves;
    WorkOfInvIsNatural(sys);
    if Quiet(sys) {
      QuietIsInactive(sys);
    }
    var step := NeverStuck(sys);
    StepKeepsInv(sys, step);
    BenignIsInternal(step);
    InternalStepLowersWork(sys, step);
    PatientStepGoesOn(sys, step, s);
    var after := Next(sys, step);
    StepKeepsInv(sys, step);
    WorkOfInvIsNatural(after);
    var rest: seq<Step> := [];
    if !PlayedToTheEnd(after, s) {
      rest := EndIsReached(after, s);
    }
    FirstStep(sys, step, rest);
    steps := [step] + rest;
  }

  /** With room for one block only, playing it leaves nothing queued: a longer plan always starves. */
  lemma SingleSlotStarves(sys: System, s: StreamId, token: Token)
    requires Reachable(sys) && Wanted(sys, s) && !Playable(sys.streams[s].plan)
    requires Enabled(sys, Callback(token)) && token in sys.playback.buffers
    ensures !Traps(sys, Callback(token))
    ensures var after := Next(sys, Callback(token));
            after.active.None? && after.streams[s].control.stopped && !PlayedToTheEnd(after, s)
  {
    ReachableInv(sys);
    PlayedBlockDecides(sys, s, token);
  }

  lemma StepKeepsPlan(sys: System, step: Step, s: StreamId)
    requires Enabled(sys, step) && !Traps(sys, step) && s < |sys.streams|
    ensures s < |Next(sys, step).streams| && Next(sys, step).streams[s].plan == sys.streams[s].plan
  {
  }

  lemma {:induction false} RunKeepsPlan(sys: System, steps: seq<Step>, s: StreamId)
    requires Inv(sys) && s < |sys.streams| && Execute(sys, steps).Success?
    ensures var after := Execute(sys, steps).value;
            Inv(after) && s < |after.streams| && after.streams[s].plan == sys.streams[s].plan
    decreases |steps|
  {
    hide Inv, Enabled, Next, Traps;
    RunsKeepInv(sys, steps);
    if steps != [] {
      RunKeepsPlan(sys, steps[..|steps| - 1], s);
      StepKeepsPlan(Execute(sys, steps[..|steps| - 1]).value, steps[|steps| - 1], s);
    }
  }

  lemma UnplayableNeverEnds(sys: System, s: StreamId)
    requires Inv(sys) && s < |sys.streams| && !Playable(sys.streams[s].plan)
    ensures !PlayedToTheEnd(sys, s)
  {
  }

  /** A wanted stream can be played to the end exactly when its plan has one block or its queue two slots. */
  lemma PlayableExactly(sys: System, s: StreamId)
    requires Reachable(sys) && Wanted(sys, s)
    ensures (exists steps :: Execute(sys, steps).Success? && PlayedToTheEnd(Execute(sys, steps).value, s))
            <==> Playable(sys.streams[s].plan)
  {
    hide Inv, Reachable, Execute, PlayedToTheEnd;
    ReachableInv(sys);
    if Playable(sys.streams[s].plan) {
      var steps := EndIsReached(sys, s);
    } else {
      forall steps | Execute(sys, steps).Success? ensures !PlayedToTheEnd(Execute(sys, steps).value, s) {
        RunKeepsPlan(sys, steps, s);
        UnplayableNeverEnds(Execute(sys, steps).value, s);
      }
    }
  }
}
