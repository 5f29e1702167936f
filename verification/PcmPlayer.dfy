/** The schedule, the permit control and the player as objects that their methods update in place. */
module PcmPlayer {
  import opened Wrappers
  import opened PcmSchedule

  class PcmStreamSchedule {
    const plan: Plan
    var scheduledBlocks: nat
    var drainedBlocks: nat
    var queuedBlocks: nat
    var stopping: bool
    var playbackStarted: bool

    constructor (plan: Plan)
      ensures this.plan == plan && View() == NewSchedule(plan)
    {
      this.plan := plan;
      scheduledBlocks, drainedBlocks, queuedBlocks := 0, 0, 0;
      stopping, playbackStarted := false, false;
    }

    function View(): Schedule
      reads this
    {
      Schedule(plan, scheduledBlocks, drainedBlocks, queuedBlocks, stopping, playbackStarted)
    }

    method ReserveNextBlock() returns (reserved: bool)
      modifies this
      ensures reserved == old(View()).MayReserve() && View() == old(View()).Reserve()
    {
      if stopping || scheduledBlocks >= plan.totalBlocks || queuedBlocks >= plan.maximumQueuedBlocks {
        return false;
      }
      scheduledBlocks := scheduledBlocks + 1;
      queuedBlocks := queuedBlocks + 1;
      return true;
    }

    method RequestStopAfterDrain()
      modifies this
      ensures View() == old(View()).(stopping := true)
    {
      stopping := true;
    }

    method MarkPlaybackStarted()
      requires View().Ready()
      modifies this
      ensures View() == old(View()).(started := true)
    {
      playbackStarted := true;
    }

    method DidDrainBlock() returns (outcome: Drain)
      requires queuedBlocks > 0
      modifies this
      ensures View() == old(View()).AfterDrain() && outcome == View().Verdict()
    {
      queuedBlocks := queuedBlocks - 1;
      drainedBlocks := drainedBlocks + 1;
      if stopping {
        return if queuedBlocks == 0 then Stopped else AwaitingRefill;
      }
      if drainedBlocks == plan.totalBlocks {
        return Complete;
      }
      return if queuedBlocks == 0 then Starved else AwaitingRefill;
    }
  }

  class PcmStreamControl {
    var permits: nat
    var stopped: bool
    const wakeCount: nat

    constructor (maximumQueuedBlocks: nat)
      ensures View() == Control(maximumQueuedBlocks, false, maximumQueuedBlocks)
    {
      permits := maximumQueuedBlocks;
      stopped := false;
      wakeCount := maximumQueuedBlocks;
    }

    function View(): Control
      reads this
    {
      Control(permits, stopped, wakeCount)
    }

    method ReleasePlaybackPermit()
      modifies this
      ensures View() == old(View()).Release()
    {
      permits := permits + 1;
    }

    /** The flag is set once, and only the call that sets it wakes waiting producers. */
    method Stop()
      modifies this
      ensures View() == old(View()).Stop()
      ensures stopped && permits == old(permits) + if old(stopped) then 0 else wakeCount
    {
      var wasStopped := stopped;
      stopped := true;
      if !wasStopped {
        for i := 0 to wakeCount
          invariant stopped && permits == old(permits) + i
        {
          permits := permits + 1;
        }
      }
    }
  }

  /** How a player call ended: the terminal callback it made, if any. */
  datatype Terminal = NoTerminal | OnFinished | OnError(error: PlaybackError)

  class PcmPlayback {
    var generation: Option<StreamId>
    var schedule: PcmStreamSchedule?
    var control: PcmStreamControl?
    var buffers: set<Token>

    constructor ()
      ensures View() == Playback(None, None, {}) && control == null
    {
      generation, schedule, control, buffers := None, null, null, {};
    }

    function View(): Playback
      reads this, schedule
    {
      Playback(generation, if schedule == null then None else Some(schedule.View()), buffers)
    }

    /** The control of the current stream is stopped, or there was none. */
    twostate predicate ControlStopped()
      reads this, control
    {
      control == old(control) && (control != null ==> control.View() == old(control.View()).Stop())
    }

    method Begin(stream: StreamId, plan: Plan) returns (created: PcmStreamControl)
      modifies this, control
      ensures View() == old(View()).Begin(stream, plan)
      ensures fresh(created) && control == created && fresh(schedule)
      ensures created.View() == Control(plan.maximumQueuedBlocks, false, plan.maximumQueuedBlocks)
      ensures old(control) != null ==> old(control).View() == old(control.View()).Stop()
    {
      buffers := {};
      if control != null {
        control.Stop();
      }
      created := new PcmStreamControl(plan.maximumQueuedBlocks);
      generation := Some(stream);
      control := created;
      schedule := new PcmStreamSchedule(plan);
    }

    /** On success the block is held and its callback pending; engine failure leaves it held. */
    method Enqueue(token: Token, engineStarts: bool) returns (error: Option<PlaybackError>)
      modifies this, schedule
      ensures View() == old(View()).Enqueue(token, engineStarts)
      ensures error == old(View()).EnqueueError(token, engineStarts)
      ensures schedule == old(schedule) && control == old(control)
      ensures error != Some(StreamScheduling) ==>
                && schedule != null && token in buffers
                && var queued, plan := schedule.queuedBlocks, schedule.plan;
                && queued == old(if schedule == null then 0 else schedule.queuedBlocks) + 1
                && schedule.playbackStarted
                   == (|| old(schedule != null && schedule.playbackStarted)
                       || (engineStarts && queued <= plan.totalBlocks && queued <= plan.maximumQueuedBlocks
                           && (queued == plan.totalBlocks || queued == plan.maximumQueuedBlocks)))
    {
      if generation != Some(token.stream) || schedule == null {
        return Some(StreamScheduling);
      }
      var reserved := schedule.ReserveNextBlock();
      if !reserved {
        return Some(StreamScheduling);
      }
      buffers := buffers + {token};
      if schedule.View().Ready() {
        if !engineStarts {
          return Some(EngineStart);
        }
        schedule.MarkPlaybackStarted();
      }
      return None;
    }

    method StopAndDrain() returns (terminal: Terminal)
      modifies this, schedule, control
      ensures View() == old(View()).StopAndDrain()
      ensures old(schedule) != null ==> ControlStopped()
      ensures terminal == if old(View()).StopsAtOnce() then OnFinished else NoTerminal
    {
      if schedule == null {
        return NoTerminal;
      }
      var stopsImmediately := !schedule.playbackStarted;
      schedule.RequestStopAfterDrain();
      if control != null {
        control.Stop();
      }
      if stopsImmediately || buffers == {} {
        buffers := {};
        return OnFinished;
      }
      return NoTerminal;
    }

    method Abort(error: PlaybackError) returns (terminal: Terminal)
      modifies this, control
      ensures View() == old(View()).Abort() && ControlStopped()
      ensures terminal == OnError(error) && schedule == old(schedule)
    {
      if control != null {
        control.Stop();
      }
      buffers := {};
      return OnError(error);
    }

    /** A completion callback, with the control of the stream it belongs to. */
    method DidDrain(token: Token, captured: PcmStreamControl) returns (terminal: Terminal)
      requires View().CountsDrain(token) ==> schedule.queuedBlocks > 0 && captured == control
      modifies this, schedule, control, captured
      ensures !old(View()).CountsDrain(token) ==>
                View() == old(View()) && captured.View() == old(captured.View()) && terminal == NoTerminal
      ensures old(View()).CountsDrain(token) ==>
                var drained := old(View()).DidDrain(token);
                var released := old(captured.View()).Release();
                match drained.schedule.value.Verdict()
                case AwaitingRefill => View() == drained && captured.View() == released && terminal == NoTerminal
                case Complete => View() == drained && captured.View() == released && terminal == OnFinished
                case Stopped => View() == drained && captured.View() == released && terminal == OnFinished
                case Starved =>
                  && View() == drained.Abort()
                  && captured.View() == released.Stop()
                  && terminal == OnError(StarvedPlayback)
    {
      if generation != Some(token.stream) || schedule == null || token !in buffers {
        return NoTerminal;
      }
      buffers := buffers - {token};
      captured.ReleasePlaybackPermit();
      var outcome := schedule.DidDrainBlock();
      match outcome {
        case AwaitingRefill => terminal := NoTerminal;
        case Complete => terminal := OnFinished;
        case Stopped => terminal := OnFinished;
        case Starved => terminal := Abort(StarvedPlayback);
      }
    }
  }
}
