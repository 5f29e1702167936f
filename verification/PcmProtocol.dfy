/**
 The producer, the main actor and the playback callbacks of all streams, interleaved step by step.
 The producers share one serial queue; the tasks a producer posts reach the main actor in any order.
 */
module PcmProtocol {
  import opened Wrappers
  import opened PcmSchedule

  /** Where a producer stands; `block` counts the blocks it has posted. */
  datatype Producer =
    | Waiting(block: nat)
    | Checking(block: nat)
    | Holding(block: nat)
    | Finished(block: nat)
  {
    function Held(): nat {
      if Checking? || Holding? then 1 else 0
    }

    /** The state after posting one more block of `total`. */
    function Posted(total: nat): Producer {
      if block + 1 < total then Waiting(block + 1) else Finished(block + 1)
    }
  }

  /** One stream: its control, its producer, the blocks posted but not delivered, and a posted error. */
  datatype Stream = Stream(plan: Plan, control: Control, producer: Producer, inFlight: set<nat>, errorPending: bool)

  function NewStream(plan: Plan): Stream {
    Stream(plan, Control(plan.maximumQueuedBlocks, false, plan.maximumQueuedBlocks), Waiting(0), {}, false)
  }

  /** `active` is the stream whose run the user still wants; `callbacks` are those yet to fire. */
  datatype System = System(
    streams: seq<Stream>,
    playback: Playback,
    callbacks: set<Token>,
    active: Option<StreamId>)

  function Start(): System {
    System([], Playback(None, None, {}), {}, None)
  }

  datatype Step =
    | Begin(plan: Plan)
    | Cancel
    | Take(stream: StreamId)
    | SeeStop(stream: StreamId)
    | CheckFlag(stream: StreamId)
    | Post(stream: StreamId)
    | Fail(stream: StreamId)
    | Deliver(stream: StreamId, block: nat, engineStarts: bool)
    | DeliverError(stream: StreamId)
    | Callback(token: Token)
  {
    /** Steps of the machinery, as opposed to requests of the user. */
    predicate Internal() {
      !Begin? && !Cancel?
    }
  }

  /** Producers run one at a time, in the order their streams began. */
  predicate OnQueue(sys: System, s: StreamId) {
    s < |sys.streams| && forall t :: 0 <= t < s ==> sys.streams[t].producer.Finished?
  }

  predicate Enabled(sys: System, step: Step) {
    match step
    case Begin(plan) => plan.Valid()
    case Cancel => true
    case Take(s) => OnQueue(sys, s) && sys.streams[s].producer.Waiting? && sys.streams[s].control.permits > 0
    case SeeStop(s) => OnQueue(sys, s) && sys.streams[s].producer.Waiting? && sys.streams[s].control.stopped
    case CheckFlag(s) => OnQueue(sys, s) && sys.streams[s].producer.Checking?
    case Post(s) => OnQueue(sys, s) && sys.streams[s].producer.Holding?
    case Fail(s) => OnQueue(sys, s) && sys.streams[s].producer.Holding?
    case Deliver(s, block, _) => s < |sys.streams| && block in sys.streams[s].inFlight
    case DeliverError(s) => s < |sys.streams| && sys.streams[s].errorPending
    case Callback(token) =>
      // The player reports a held buffer as played only once it is playing.
      && token in sys.callbacks
      && (sys.playback.CountsDrain(token) ==> sys.playback.schedule.value.started)
  }

  // ----- What each step does -----

  function StopStream(streams: seq<Stream>, s: StreamId): seq<Stream>
    requires s < |streams|
  {
    streams[s := streams[s].(control := streams[s].control.Stop())]
  }

  /** Stops the control of the current stream, if there is one. */
  function StopCurrent(sys: System): seq<Stream> {
    match sys.playback.generation
    case Some(g) => if g < |sys.streams| then StopStream(sys.streams, g) else sys.streams
    case None => sys.streams
  }

  /** The user withdraws the current run. */
  function CancelRun(sys: System): System {
    if sys.playback.schedule.None? then sys.(active := None)
    else sys.(streams := StopCurrent(sys), playback := sys.playback.StopAndDrain(), active := None)
  }

  /** A new run replaces whatever went before. */
  function BeginRun(sys: System, plan: Plan): System {
    var cleared := CancelRun(sys);
    var id := |cleared.streams|;
    System(StopCurrent(cleared) + [NewStream(plan)], cleared.playback.Begin(id, plan), cleared.callbacks, Some(id))
  }

  /** The current stream ends with an error. */
  function AbortRun(sys: System): System {
    sys.(streams := StopCurrent(sys), playback := sys.playback.Abort(), active := None)
  }

  function CheckedProducer(stream: Stream): Stream
    requires stream.producer.Checking?
  {
    if stream.control.stopped then
      stream.(control := stream.control.Release(), producer := Finished(stream.producer.block))
    else stream.(producer := Holding(stream.producer.block))
  }

  function DeliverBlock(sys: System, s: StreamId, block: nat, engineStarts: bool): System
    requires s < |sys.streams|
  {
    var taken := sys.(streams := sys.streams[s := sys.streams[s].(inFlight := sys.streams[s].inFlight - {block})]);
    var token := Token(s, block);
    if sys.active != Some(s) then taken.(streams := StopStream(taken.streams, s))
    else
      var queued := taken.(
        playback := taken.playback.Enqueue(token, engineStarts),
        callbacks := if taken.playback.MayEnqueue(s) then taken.callbacks + {token} else taken.callbacks);
      if taken.playback.EnqueueError(token, engineStarts).Some? then AbortRun(queued) else queued
  }

  /** Draining a block of an empty queue is a fault of the program. */
  predicate Traps(sys: System, step: Step) {
    step.Callback? && sys.playback.CountsDrain(step.token) && sys.playback.schedule.value.queued == 0
  }

  function HandleCallback(sys: System, token: Token): System
    requires !Traps(sys, Callback(token))
  {
    var fired := sys.(callbacks := sys.callbacks - {token});
    if !fired.playback.CountsDrain(token) || token.stream >= |sys.streams| then fired
    else
      var stream := sys.streams[token.stream];
      var drained := fired.(
        streams := sys.streams[token.stream := stream.(control := stream.control.Release())],
        playback := fired.playback.DidDrain(token));
      match drained.playback.schedule.value.Verdict()
      case AwaitingRefill => drained
      case Complete => drained.(active := None)
      case Stopped => drained.(active := None)
      case Starved => AbortRun(drained)
  }

  function Next(sys: System, step: Step): System
    requires Enabled(sys, step)
    requires !Traps(sys, step)
  {
    var streams := sys.streams;
    match step
    case Begin(plan) => BeginRun(sys, plan)
    case Cancel => CancelRun(sys)
    case Take(s) =>
      var control := streams[s].control;
      var taken := streams[s].(control := control.(permits := control.permits - 1),
                               producer := Checking(streams[s].producer.block));
      sys.(streams := streams[s := taken])
    case SeeStop(s) => sys.(streams := streams[s := streams[s].(producer := Finished(streams[s].producer.block))])
    case CheckFlag(s) => sys.(streams := streams[s := CheckedProducer(streams[s])])
    case Post(s) =>
      var block := streams[s].producer.block;
      var posted := streams[s].(producer := streams[s].producer.Posted(streams[s].plan.totalBlocks),
                                inFlight := streams[s].inFlight + {block});
      sys.(streams := streams[s := posted])
    case Fail(s) =>
      var failed := streams[s].(control := streams[s].control.Stop(),
                                producer := Finished(streams[s].producer.block),
                                errorPending := true);
      sys.(streams := streams[s := failed])
    case Deliver(s, block, engineStarts) => DeliverBlock(sys, s, block, engineStarts)
    case DeliverError(s) =>
      var noted := sys.(streams := streams[s := streams[s].(errorPending := false)]);
      if sys.active == Some(s) then AbortRun(noted) else noted
    case Callback(token) => HandleCallback(sys, token)
  }

  datatype Fault = NotEnabled | Trapped

  /** Runs a schedule of steps, one at a time. */
  function Execute(sys: System, steps: seq<Step>): Result<System, Fault>
    decreases |steps|
  {
    if steps == [] then Success(sys)
    else
      var last := |steps| - 1;
      var before :- Execute(sys, steps[..last]);
      if !Enabled(before, steps[last]) then Failure(NotEnabled)
      else if Traps(before, steps[last]) then Failure(Trapped)
      else Success(Next(before, steps[last]))
  }

  /** `sys` arises from some interleaving. */
  ghost predicate Reachable(sys: System) {
    exists steps :: Execute(Start(), steps) == Success(sys)
  }
}
