/** What every interleaving of producer, main actor and callbacks keeps. */
module PcmSafety {
  import opened Wrappers
  import opened PcmSchedule
  import opened PcmProtocol

  // ----- The invariant -----

  /** Blocks in flight were posted, an unfinished producer has blocks to go, and an error comes with a stop. */
  predicate StreamOk(stream: Stream) {
    && stream.plan.Valid()
    && stream.control.wakeCount == stream.plan.maximumQueuedBlocks
    && stream.producer.block <= stream.plan.totalBlocks
    && (!stream.producer.Finished? ==> stream.producer.block < stream.plan.totalBlocks)
    && (forall b :: b in stream.inFlight ==> b < stream.producer.block)
    && (stream.errorPending ==> stream.control.stopped)
  }

  /** The control of a stream nobody wants is stopped, or its producer is done. */
  predicate Retired(stream: Stream) {
    stream.control.stopped || stream.producer.Finished?
  }

  /** A pending callback belongs to a block that was posted and delivered. */
  predicate CallbackOk(streams: seq<Stream>, token: Token) {
    && token.stream < |streams|
    && token.block < streams[token.stream].producer.block
    && token.block !in streams[token.stream].inFlight
  }

  predicate PlaybackOk(sys: System) {
    && (sys.playback.generation == if sys.streams == [] then None else Some(|sys.streams| - 1))
    && sys.playback.schedule.Some? == (sys.streams != [])
    && (forall token :: token in sys.playback.buffers ==> token in sys.callbacks && token.stream == |sys.streams| - 1)
    && (sys.streams != [] ==>
          && sys.playback.schedule.value.plan == sys.streams[|sys.streams| - 1].plan
          && (sys.playback.schedule.value.plan.maximumQueuedBlocks == 1 ==>
                sys.playback.schedule.value.drained + |sys.playback.buffers| <= 1)
          && (sys.playback.buffers != {} ==>
                && sys.playback.schedule.value.queued == |sys.playback.buffers|
                && (sys.active.None? ==> sys.playback.schedule.value.started && sys.playback.schedule.value.stopping)))
  }

  /** Free permits and the blocks that hold one. */
  function PermitsAccounted(sys: System, stream: Stream): nat
    requires sys.playback.schedule.Some?
  {
    stream.control.permits + stream.producer.Held() + |stream.inFlight| + sys.playback.schedule.value.queued
  }

  /** The stream the user is listening to. */
  predicate LiveOk(sys: System, stream: Stream)
    requires sys.playback.schedule.Some?
  {
    var schedule := sys.playback.schedule.value;
    && !schedule.stopping
    && schedule.scheduled == schedule.drained + schedule.queued
    && schedule.scheduled + |stream.inFlight| == stream.producer.block
    && schedule.queued == |sys.playback.buffers|
    && schedule.drained < stream.plan.totalBlocks
    && (stream.plan.maximumQueuedBlocks == 1 ==> schedule.drained == 0)
    && stream.producer.Held() + |stream.inFlight| + schedule.queued <= stream.plan.maximumQueuedBlocks
    && (if stream.control.stopped then stream.producer.Finished? && stream.errorPending
        else PermitsAccounted(sys, stream) == stream.plan.maximumQueuedBlocks
             && (stream.producer.Finished? ==> stream.producer.block == stream.plan.totalBlocks))
    && (if schedule.started then schedule.queued > 0
        else schedule.drained == 0 && schedule.queued < stream.plan.Prefill())
  }

  predicate StreamsOk(sys: System) {
    && (forall s :: 0 <= s < |sys.streams| ==> StreamOk(sys.streams[s]))
    && (forall s :: 0 <= s < |sys.streams| && sys.active != Some(s) ==> Retired(sys.streams[s]))
    && (forall token :: token in sys.callbacks ==> CallbackOk(sys.streams, token))
  }

  predicate Inv(sys: System) {
    && StreamsOk(sys)
    && PlaybackOk(sys)
    && (sys.active.Some? ==>
          && sys.streams != []
          && sys.active.value == |sys.streams| - 1
          && LiveOk(sys, sys.streams[sys.active.value]))
  }

  // ----- Each step keeps it -----

  lemma CancelKeepsInv(sys: System)
    requires Inv(sys)
    ensures Inv(CancelRun(sys)) && CancelRun(sys).active.None?
    ensures |CancelRun(sys).streams| == |sys.streams|
  {
  }

  lemma BeginKeepsInv(sys: System, plan: Plan)
    requires Inv(sys) && plan.Valid()
    ensures Inv(BeginRun(sys, plan))
  {
    CancelKeepsInv(sys);
    hide CancelRun;
  }

  /** `after` is a later state of `before`: only freshly posted blocks come into flight. */
  predicate Succeeds(after: Stream, before: Stream) {
    && after.plan == before.plan
    && after.producer.block >= before.producer.block
    && (forall b :: b in after.inFlight ==> b in before.inFlight || b >= before.producer.block)
  }

  /** A step of one stream keeps the invariant when it keeps that stream's own part of it. */
  lemma StreamStepKeepsInv(sys: System, s: StreamId, after: Stream)
    requires Inv(sys) && s < |sys.streams|
    requires StreamOk(after) && Succeeds(after, sys.streams[s])
    requires if sys.active == Some(s) then LiveOk(sys, after) else Retired(after)
    ensures Inv(sys.(streams := sys.streams[s := after]))
  {
    hide StreamOk, Retired;
  }

  lemma TakeKeepsInv(sys: System, s: StreamId)
    requires Inv(sys) && Enabled(sys, Take(s))
    ensures Inv(Next(sys, Take(s)))
  {
    var stream := sys.streams[s];
    var control := stream.control;
    assert StreamOk(stream);
    hide StreamsOk, PlaybackOk;
    StreamStepKeepsInv(sys, s, stream.(control := control.(permits := control.permits - 1),
                                       producer := Checking(stream.producer.block)));
  }

  lemma SeeStopKeepsInv(sys: System, s: StreamId)
    requires Inv(sys) && Enabled(sys, SeeStop(s))
    ensures Inv(Next(sys, SeeStop(s)))
  {
    var stream := sys.streams[s];
    assert StreamOk(stream);
    StreamStepKeepsInv(sys, s, stream.(producer := Finished(stream.producer.block)));
  }

  lemma CheckFlagKeepsInv(sys: System, s: StreamId)
    requires Inv(sys) && Enabled(sys, CheckFlag(s))
    ensures Inv(Next(sys, CheckFlag(s)))
  {
    assert StreamOk(sys.streams[s]);
    StreamStepKeepsInv(sys, s, CheckedProducer(sys.streams[s]));
  }

  lemma FailKeepsInv(sys: System, s: StreamId)
    requires Inv(sys) && Enabled(sys, Fail(s))
    ensures Inv(Next(sys, Fail(s)))
  {
    assert StreamOk(sys.streams[s]);
    StreamStepKeepsInv(sys, s, Next(sys, Fail(s)).streams[s]);
  }

  lemma PostKeepsInv(sys: System, s: StreamId)
    requires Inv(sys) && Enabled(sys, Post(s))
    ensures Inv(Next(sys, Post(s)))
  {
    var stream := sys.streams[s];
    assert StreamOk(stream);
    assert stream.producer.block !in stream.inFlight;
    assert |stream.inFlight + {stream.producer.block}| == |stream.inFlight| + 1;
    StreamStepKeepsInv(sys, s, Next(sys, Post(s)).streams[s]);
  }

  /** Aborting keeps everything except what the live stream promised, which is over. */
  lemma AbortKeepsInv(sys: System)
    requires StreamsOk(sys) && PlaybackOk(sys)
    requires sys.active == Some(|sys.streams| - 1)
    ensures Inv(AbortRun(sys))
  {
  }

  lemma DeliverErrorKeepsInv(sys: System, s: StreamId)
    requires Inv(sys) && Enabled(sys, DeliverError(s))
    ensures Inv(Next(sys, DeliverError(s)))
  {
    var noted := sys.(streams := sys.streams[s := sys.streams[s].(errorPending := false)]);
    if sys.active == Some(s) {
      AbortKeepsInv(noted);
    }
  }

  /** A block posted by the live stream is never refused by the schedule. */
  lemma LiveBlockIsAdmitted(sys: System, s: StreamId, block: nat)
    requires Inv(sys) && sys.active == Some(s) && block in sys.streams[s].inFlight
    ensures sys.playback.MayEnqueue(s)
  {
    var stream := sys.streams[s];
    assert |stream.inFlight - {block}| == |stream.inFlight| - 1;
  }

  lemma StaleDeliveryKeepsInv(sys: System, s: StreamId, block: nat, engineStarts: bool)
    requires Inv(sys) && Enabled(sys, Deliver(s, block, engineStarts)) && sys.active != Some(s)
    ensures Inv(Next(sys, Deliver(s, block, engineStarts)))
  {
    assert StreamOk(sys.streams[s]);
    hide StreamsOk, PlaybackOk, LiveOk;
    var stream := sys.streams[s];
    var taken := stream.(inFlight := stream.inFlight - {block});
    var after := taken.(control := stream.control.Stop());
    assert sys.streams[s := taken][s := after] == sys.streams[s := after];
    StreamStepKeepsInv(sys, s, after);
  }

  /** The live stream with one of its posted blocks queued. */
  function Queued(sys: System, s: StreamId, block: nat, engineStarts: bool): System
    requires s < |sys.streams|
  {
    var stream, token := sys.streams[s], Token(s, block);
    sys.(
      streams := sys.streams[s := stream.(inFlight := stream.inFlight - {block})],
      playback := sys.playback.Enqueue(token, engineStarts),
      callbacks := sys.callbacks + {token})
  }

  lemma QueuedStreamsAreOk(sys: System, s: StreamId, block: nat, engineStarts: bool)
    requires Inv(sys) && sys.active == Some(s) && block in sys.streams[s].inFlight
    ensures StreamsOk(Queued(sys, s, block, engineStarts))
    ensures Token(s, block) !in sys.callbacks
  {
    hide PlaybackOk, LiveOk, Retired;
    var stream := sys.streams[s];
    assert StreamOk(stream);
  }

  lemma QueuedPlaybackIsOk(sys: System, s: StreamId, block: nat, engineStarts: bool)
    requires Inv(sys) && sys.active == Some(s) && block in sys.streams[s].inFlight
    requires Token(s, block) !in sys.callbacks
    ensures PlaybackOk(Queued(sys, s, block, engineStarts))
  {
    LiveBlockIsAdmitted(sys, s, block);
    hide StreamsOk;
    assert |sys.playback.buffers + {Token(s, block)}| == |sys.playback.buffers| + 1;
  }

  lemma QueuedIsLive(sys: System, s: StreamId, block: nat, engineStarts: bool)
    requires Inv(sys) && sys.active == Some(s) && block in sys.streams[s].inFlight
    requires sys.playback.EnqueueError(Token(s, block), engineStarts).None?
    ensures var queued := Queued(sys, s, block, engineStarts);
            queued.playback.schedule.Some? && LiveOk(queued, queued.streams[s])
  {
    hide StreamsOk, StreamOk;
    LiveBlockIsAdmitted(sys, s, block);
    QueuedStreamsAreOk(sys, s, block, engineStarts);
    var stream, token := sys.streams[s], Token(s, block);
    assert |stream.inFlight - {block}| == |stream.inFlight| - 1;
    assert |sys.playback.buffers + {token}| == |sys.playback.buffers| + 1;
  }

  /** Delivering to the live stream queues the block, and ends the stream if the engine does not start. */
  lemma LiveDeliveryKeepsInv(sys: System, s: StreamId, block: nat, engineStarts: bool)
    requires Inv(sys) && Enabled(sys, Deliver(s, block, engineStarts)) && sys.active == Some(s)
    ensures Inv(Next(sys, Deliver(s, block, engineStarts)))
  {
    hide StreamsOk, PlaybackOk, LiveOk;
    LiveBlockIsAdmitted(sys, s, block);
    QueuedStreamsAreOk(sys, s, block, engineStarts);
    QueuedPlaybackIsOk(sys, s, block, engineStarts);
    if sys.playback.EnqueueError(Token(s, block), engineStarts).Some? {
      AbortKeepsInv(Queued(sys, s, block, engineStarts));
    } else {
      QueuedIsLive(sys, s, block, engineStarts);
    }
  }

  /** The player with one of its buffers drained and the permit returned. */
  function Drained(sys: System, token: Token): System
    requires sys.playback.CountsDrain(token) && sys.playback.schedule.value.queued > 0
    requires token.stream < |sys.streams|
  {
    var stream := sys.streams[token.stream];
    sys.(
      streams := sys.streams[token.stream := stream.(control := stream.control.Release())],
      playback := sys.playback.DidDrain(token),
      callbacks := sys.callbacks - {token})
  }

  lemma DrainedIsOk(sys: System, token: Token)
    requires Inv(sys) && Enabled(sys, Callback(token)) && sys.playback.CountsDrain(token)
    ensures sys.playback.schedule.value.queued > 0
    ensures StreamsOk(Drained(sys, token)) && PlaybackOk(Drained(sys, token))
  {
    assert |sys.playback.buffers - {token}| == |sys.playback.buffers| - 1;
  }

  lemma DrainedGoesOn(sys: System, token: Token)
    requires Inv(sys) && Enabled(sys, Callback(token)) && sys.playback.CountsDrain(token)
    requires sys.active.Some? && sys.playback.schedule.value.queued > 0
    ensures var drained := Drained(sys, token);
            match drained.playback.schedule.value.Verdict()
            case AwaitingRefill => LiveOk(drained, drained.streams[token.stream])
            case Complete => Retired(drained.streams[token.stream])
            case Starved => true
            case Stopped => false
  {
    assert |sys.playback.buffers - {token}| == |sys.playback.buffers| - 1;
  }

  lemma IgnoredCallbackKeepsInv(sys: System, token: Token)
    requires Inv(sys) && Enabled(sys, Callback(token)) && !sys.playback.CountsDrain(token)
    ensures Inv(sys.(callbacks := sys.callbacks - {token}))
  {
  }

  lemma CallbackKeepsInv(sys: System, token: Token)
    requires Inv(sys) && Enabled(sys, Callback(token))
    ensures !Traps(sys, Callback(token)) && Inv(Next(sys, Callback(token)))
  {
    if !sys.playback.CountsDrain(token) {
      IgnoredCallbackKeepsInv(sys, token);
    } else {
      DrainedIsOk(sys, token);
      assert token.stream == |sys.streams| - 1;
      if sys.active.Some? {
        DrainedGoesOn(sys, token);
        if Drained(sys, token).playback.schedule.value.Verdict().Starved? {
          AbortKeepsInv(Drained(sys, token));
        }
      }
      hide StreamsOk, LiveOk;
    }
  }

  lemma StepKeepsInv(sys: System, step: Step)
    requires Inv(sys) && Enabled(sys, step)
    ensures !Traps(sys, step) && Inv(Next(sys, step))
  {
    hide Inv;
    match step
    case Begin(plan) => BeginKeepsInv(sys, plan);
    case Cancel => CancelKeepsInv(sys);
    case Take(s) => TakeKeepsInv(sys, s);
    case SeeStop(s) => SeeStopKeepsInv(sys, s);
    case CheckFlag(s) => CheckFlagKeepsInv(sys, s);
    case Post(s) => PostKeepsInv(sys, s);
    case Fail(s) => FailKeepsInv(sys, s);
    case Deliver(s, block, engineStarts) =>
      if sys.active == Some(s) {
        LiveDeliveryKeepsInv(sys, s, block, engineStarts);
      } else {
        StaleDeliveryKeepsInv(sys, s, block, engineStarts);
      }
    case DeliverError(s) => DeliverErrorKeepsInv(sys, s);
    case Callback(token) => CallbackKeepsInv(sys, token);
  }
}
