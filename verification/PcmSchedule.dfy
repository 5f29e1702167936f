/**
 The bounded PCM player queue as values: the schedule of one stream, the producer's permit control,
 and the player that owns the current stream.
 */
module PcmSchedule {
  import opened Wrappers

  datatype Plan = Plan(totalBlocks: nat, maximumQueuedBlocks: nat) {
    predicate Valid() {
      totalBlocks > 0 && maximumQueuedBlocks > 0
    }

    /** Queue depth at which playback starts. */
    function Prefill(): nat {
      if totalBlocks <= maximumQueuedBlocks then totalBlocks else maximumQueuedBlocks
    }
  }

  datatype Drain = AwaitingRefill | Complete | Starved | Stopped

  datatype Schedule = Schedule(
    plan: Plan,
    scheduled: nat,
    drained: nat,
    queued: nat,
    stopping: bool,
    started: bool)
  {
    predicate MayReserve() {
      !stopping && scheduled < plan.totalBlocks && queued < plan.maximumQueuedBlocks
    }

    function Reserve(): Schedule {
      if MayReserve() then this.(scheduled := scheduled + 1, queued := queued + 1) else this
    }

    predicate Ready() {
      !started && queued == plan.Prefill()
    }

    function AfterDrain(): Schedule
      requires queued > 0
    {
      this.(queued := queued - 1, drained := drained + 1)
    }

    /** What a schedule that has just drained a block calls for. */
    function Verdict(): Drain {
      if stopping then (if queued == 0 then Stopped else AwaitingRefill)
      else if drained == plan.totalBlocks then Complete
      else if queued == 0 then Starved
      else AwaitingRefill
    }
  }

  function NewSchedule(plan: Plan): Schedule {
    Schedule(plan, 0, 0, 0, false, false)
  }

  /** The permit semaphore and its stop flag. */
  datatype Control = Control(permits: nat, stopped: bool, wakeCount: nat) {
    function Release(): Control {
      this.(permits := permits + 1)
    }

    /** The first stop wakes a waiting producer with `wakeCount` permits; later ones do nothing. */
    function Stop(): Control {
      if stopped then this else this.(permits := permits + wakeCount, stopped := true)
    }
  }

  type StreamId = nat

  /** A buffer handed to the player: block `block` of stream `stream`. */
  datatype Token = Token(stream: StreamId, block: nat)

  datatype PlaybackError = StreamScheduling | EngineStart | StarvedPlayback | MalformedPayload

  datatype Playback = Playback(generation: Option<StreamId>, schedule: Option<Schedule>, buffers: set<Token>) {
    predicate Accepts(stream: StreamId) {
      generation == Some(stream)
    }

    function Begin(stream: StreamId, plan: Plan): Playback {
      Playback(Some(stream), Some(NewSchedule(plan)), {})
    }

    predicate MayEnqueue(stream: StreamId) {
      Accepts(stream) && schedule.Some? && schedule.value.MayReserve()
    }

    /** Queues a block, and starts the engine once the queue is prefilled. */
    function Enqueue(token: Token, engineStarts: bool): Playback {
      if !MayEnqueue(token.stream) then this
      else
        var reserved := schedule.value.Reserve();
        var queue := buffers + {token};
        if reserved.Ready() && engineStarts then
          this.(schedule := Some(reserved.(started := true)), buffers := queue)
        else this.(schedule := Some(reserved), buffers := queue)
    }

    function EnqueueError(token: Token, engineStarts: bool): Option<PlaybackError> {
      if !MayEnqueue(token.stream) then Some(StreamScheduling)
      else if schedule.value.Reserve().Ready() && !engineStarts then Some(EngineStart)
      else None
    }

    /** Whether a stop request ends the stream at once instead of draining its queue. */
    predicate StopsAtOnce() {
      schedule.Some? && (!schedule.value.started || buffers == {})
    }

    function StopAndDrain(): Playback {
      if schedule.None? then this
      else
        var stopping := this.(schedule := Some(schedule.value.(stopping := true)));
        if StopsAtOnce() then stopping.(buffers := {}) else stopping
    }

    /** A completion callback counts only for a buffer of the current stream that is still held. */
    predicate CountsDrain(token: Token) {
      Accepts(token.stream) && schedule.Some? && token in buffers
    }

    function DidDrain(token: Token): Playback
      requires CountsDrain(token) && schedule.value.queued > 0
    {
      this.(schedule := Some(schedule.value.AfterDrain()), buffers := buffers - {token})
    }

    function Abort(): Playback {
      this.(buffers := {})
    }
  }
}
