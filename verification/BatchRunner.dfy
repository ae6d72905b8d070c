/** The batcher's runner object: its loop, the drains after cancellation, and the sender's side. */
module BatchRunners {
  import opened Prelude
  import opened Batching

  /** What the outside world does around one round: envelopes sent before it, the clock, the select. */
  datatype Round = Round(sends: seq<int>, now: int, choice: Choice)

  lemma {:induction false} RunSnoc(o: Options, s: State, steps: seq<Step>, step: Step)
    ensures Run(o, s, steps + [step]) == Next(o, Run(o, s, steps), step)
    decreases |steps|
  {
    if steps == [] {
      assert [step][1..] == [];
    } else {
      assert (steps + [step])[1..] == steps[1..] + [step];
      RunSnoc(o, Next(o, s, steps[0]), steps[1..], step);
    }
  }

  class TransportBatchRunner {
    const o: Options
    var channel: seq<Queued>
    var pending: seq<Queued>
    var active: Option<seq<Queued>>
    var phase: Phase
    ghost var admitted: seq<Queued>
    ghost var started: seq<Batch>
    ghost var answered: nat
    ghost var turnedAway: seq<Queued>
    var count: nat

    /** The object as a state of the step machine. */
    ghost function View(): State
      reads this
    {
      State(channel, pending, active, phase, admitted, started, answered, turnedAway)
    }

    ghost predicate Valid()
      reads this
    {
      o.Valid() && count == |admitted|
    }

    constructor (o: Options)
      requires o.Valid()
      ensures Valid() && View() == INITIAL && this.o == o
    {
      this.o, channel, pending, active, phase, count := o, [], [], None, Running, 0;
      admitted, started, answered, turnedAway := [], [], 0, [];
    }

    /** A sender's `try_send`; refused exactly when the channel is full or the runner is gone. */
    method TrySend(at: int) returns (accepted: bool)
      requires Valid()
      modifies this
      ensures Valid() && View() == Next(o, old(View()), Send(at))
      ensures accepted <==> !old(phase).Stopped? && |old(channel)| < o.maxQueueLength
    {
      accepted := !phase.Stopped? && |channel| < o.maxQueueLength;
      if accepted {
        var q := Queued(count, at);
        channel, count := channel + [q], count + 1;
        admitted := admitted + [q];
      }
    }

    /** Takes the oldest pending envelopes, at most one batch of them. */
    method TakeBatch() returns (batch: seq<Queued>)
      modifies this`pending
      ensures batch + pending == old(pending) && |batch| == Min(|old(pending)|, o.maxBatchSize)
    {
      batch := [];
      while pending != [] && |batch| < o.maxBatchSize
        invariant batch + pending == old(pending) && |batch| <= o.maxBatchSize
        decreases |pending|
      {
        batch, pending := batch + [pending[0]], pending[1..];
      }
    }

    /** One round of the loop; answers whether the loop goes on. */
    method LoopRound(now: int, choice: Choice) returns (goesOn: bool)
      requires Valid() && phase.Running?
      modifies this
      ensures Valid() && View() == Next(o, old(View()), Iterate(now, choice))
      ensures goesOn <==> phase.Running?
    {
      if active.None? && Ready(o, pending, now) {
        ghost var before := pending;
        var batch := TakeBatch();
        assert batch == before[..|batch|] && pending == before[|batch|..];
        active := Some(batch);
        started := started + [Batch(batch, now)];
        return true;
      }
      if choice.Cancelled? {
        phase := DrainingChannel;
        return false;
      }
      if active.Some? {
        if choice.FlushDone? {
          active := None;
          answered := answered + 1;
        }
        return true;
      }
      if choice.Received? && channel != [] {
        pending, channel := pending + [channel[0]], channel[1..];
      }
      return true;
    }

    /** Turns away the channel until it is seen empty, then everything pending; senders may still send. */
    method RejectUnstarted(sends: seq<int>) returns (ghost steps: seq<Step>)
      requires Valid() && phase.DrainingChannel?
      modifies this
      ensures Valid() && phase.Finishing? && View() == Run(o, old(View()), steps)
    {
      steps := [];
      var left := sends;
      while channel != []
        invariant Valid() && phase.DrainingChannel? && View() == Run(o, old(View()), steps)
        decreases |left| + |left| + |channel|
      {
        steps := DrainStep(old(View()), steps);
        if left != [] {
          RunSnoc(o, old(View()), steps, Send(left[0]));
          var _ := TrySend(left[0]);
          steps, left := steps + [Send(left[0])], left[1..];
        }
      }
      steps := DrainStep(old(View()), steps);
      while pending != []
        invariant Valid() && phase.DrainingPending? && View() == Run(o, old(View()), steps)
        decreases |pending|
      {
        steps := DrainStep(old(View()), steps);
      }
      steps := DrainStep(old(View()), steps);
    }

    method DrainStep(ghost from: State, ghost steps: seq<Step>) returns (ghost steps': seq<Step>)
      requires Valid() && View() == Run(o, from, steps)
      modifies this
      ensures Valid() && View() == DrainOnce(old(View()))
      ensures steps' == steps + [Drain] && View() == Run(o, from, steps')
    {
      RunSnoc(o, from, steps, Drain);
      steps' := steps + [Drain];
      if phase.DrainingChannel? {
        if channel == [] {
          phase := DrainingPending;
        } else {
          turnedAway := turnedAway + [channel[0]];
          channel := channel[1..];
        }
      } else if phase.DrainingPending? {
        if pending == [] {
          phase := Finishing;
        } else {
          turnedAway := turnedAway + [pending[0]];
          pending := pending[1..];
        }
      }
    }

    /** Waits for the last batch and drops the receiver with whatever is still in it. */
    method FinishUp(ghost from: State, ghost steps: seq<Step>) returns (ghost steps': seq<Step>)
      requires Valid() && phase.Finishing? && View() == Run(o, from, steps)
      modifies this
      ensures Valid() && phase.Stopped? && View() == Run(o, from, steps')
    {
      steps' := steps;
      if active.Some? {
        RunSnoc(o, from, steps', Finish);
        steps' := steps' + [Finish];
        active := None;
        answered := answered + 1;
      }
      RunSnoc(o, from, steps', Finish);
      steps' := steps' + [Finish];
      turnedAway := turnedAway + channel;
      channel, phase := [], Stopped;
    }

    /**
      The whole runner against any script of the outside world: it makes exactly the steps of the
      machine, and once cancelled it comes to a stop with everything answered or turned away.
     */
    method RunUntilCancelled(script: seq<Round>, lateSends: seq<int>) returns (stopped: bool, ghost steps: seq<Step>)
      requires Valid() && phase.Running?
      modifies this
      ensures Valid() && View() == Run(o, old(View()), steps)
      ensures stopped <==> phase.Stopped?
      ensures StateOk(o, old(View())) ==> StateOk(o, View())
      ensures !stopped ==> phase.Running?
    {
      steps := [];
      for i := 0 to |script|
        invariant Valid() && phase.Running? && View() == Run(o, old(View()), steps)
      {
        for j := 0 to |script[i].sends|
          invariant Valid() && phase.Running? && View() == Run(o, old(View()), steps)
        {
          RunSnoc(o, old(View()), steps, Send(script[i].sends[j]));
          var _ := TrySend(script[i].sends[j]);
          steps := steps + [Send(script[i].sends[j])];
        }
        RunSnoc(o, old(View()), steps, Iterate(script[i].now, script[i].choice));
        var goesOn := LoopRound(script[i].now, script[i].choice);
        steps := steps + [Iterate(script[i].now, script[i].choice)];
        if !goesOn {
          steps := StopRunning(old(View()), steps, lateSends);
          if StateOk(o, old(View())) { RunKeepsState(o, old(View()), steps); }
          return true, steps;
        }
      }
      if StateOk(o, old(View())) { RunKeepsState(o, old(View()), steps); }
      return false, steps;
    }

    method StopRunning(ghost from: State, ghost steps: seq<Step>, sends: seq<int>) returns (ghost steps': seq<Step>)
      requires Valid() && phase.DrainingChannel? && View() == Run(o, from, steps)
      modifies this
      ensures Valid() && phase.Stopped? && View() == Run(o, from, steps')
    {
      ghost var more := RejectUnstarted(sends);
      RunAppend(o, from, steps, more);
      steps' := FinishUp(from, steps + more);
    }
  }

  /** Creates a runner; refused exactly when a limit is zero. */
  method NewRunner(o: Options) returns (r: Option<TransportBatchRunner>)
    ensures r.None? <==>
      o.maxBatchSize == 0 || o.timeout == 0 || o.maxQueueLength == 0 || o.publishConcurrency == 0
    ensures r.Some? ==> fresh(r.value) && r.value.Valid() && r.value.View() == INITIAL && r.value.o == o
  {
    if !o.Valid() { return None; }
    var runner := new TransportBatchRunner(o);
    return Some(runner);
  }

  lemma {:induction false} RunAppend(o: Options, s: State, a: seq<Step>, b: seq<Step>)
    ensures Run(o, s, a + b) == Run(o, Run(o, s, a), b)
    decreases |a|
  {
    if a == [] {
      assert a + b == b;
    } else {
      assert (a + b)[1..] == a[1..] + b;
      RunAppend(o, Next(o, s, a[0]), a[1..], b);
    }
  }
}
