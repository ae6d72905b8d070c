/**
  The transport batcher: senders put envelopes into a bounded channel, and one runner moves them
  into a pending queue and publishes them in batches, one batch at a time, until it is cancelled.
 */
module Batching {
  import opened Prelude

  /** `lastInstant` bounds the clock: a deadline past it does not exist. */
  datatype Options = Options(
    maxBatchSize: nat, timeout: nat, maxQueueLength: nat, publishConcurrency: nat, lastInstant: int)
  {
    predicate Valid() {
      maxBatchSize > 0 && timeout > 0 && maxQueueLength > 0 && publishConcurrency > 0
    }
  }

  /** An admitted envelope: its admission number and when it was queued. */
  datatype Queued = Queued(id: nat, enqueuedAt: int)

  datatype Batch = Batch(items: seq<Queued>, startedAt: int)

  /** Where the runner stands: its loop, the two drains, the wait for the last batch, and gone. */
  datatype Phase = Running | DrainingChannel | DrainingPending | Finishing | Stopped

  /**
    The running state plus its history: everything admitted, the batches started, how many of them
    have been answered, and the envelopes turned away.
   */
  datatype State = State(
    channel: seq<Queued>,
    pending: seq<Queued>,
    active: Option<seq<Queued>>,
    phase: Phase,
    admitted: seq<Queued>,
    started: seq<Batch>,
    answered: nat,
    turnedAway: seq<Queued>)

  const INITIAL := State([], [], None, Running, [], [], 0, [])

  /**
    Which branch of the runner's select fires. A channel that is empty with every sender gone ends
    the loop as a cancellation does, so `Cancelled` stands for both.
   */
  datatype Choice = Cancelled | FlushDone | Received | Woken

  datatype Step =
    | Send(at: int)
    | Iterate(now: int, choice: Choice)
    | Drain
    | Finish

  function Deadline(o: Options, pending: seq<Queued>): Option<int> {
    if pending == [] || pending[0].enqueuedAt + o.timeout > o.lastInstant then None
    else Some(pending[0].enqueuedAt + o.timeout)
  }

  predicate Ready(o: Options, pending: seq<Queued>, now: int) {
    |pending| >= o.maxBatchSize || (Deadline(o, pending).Some? && Deadline(o, pending).value <= now)
  }

  /** One atomic step of a sender or of the runner. */
  function Next(o: Options, s: State, step: Step): State {
    match step
    case Send(at) => Admit(o, s, at)
    case Iterate(now, choice) => if s.phase.Running? then LoopOnce(o, s, now, choice) else s
    case Drain => DrainOnce(s)
    case Finish =>
      if !s.phase.Finishing? then s
      else if s.active.Some? then s.(active := None, answered := s.answered + 1)
      else s.(phase := Stopped, channel := [], turnedAway := s.turnedAway + s.channel)
  }

  /** `try_send`: refused when the channel is full or its receiver is gone. */
  function Admit(o: Options, s: State, at: int): State {
    if s.phase.Stopped? || |s.channel| >= o.maxQueueLength then s
    else
      var q := Queued(|s.admitted|, at);
      s.(channel := s.channel + [q], admitted := s.admitted + [q])
  }

  /** One round of the runner's loop. */
  function LoopOnce(o: Options, s: State, now: int, choice: Choice): State {
    if s.active.None? && Ready(o, s.pending, now) then
      var take := Min(|s.pending|, o.maxBatchSize);
      var batch := s.pending[..take];
      s.(pending := s.pending[take..], active := Some(batch), started := s.started + [Batch(batch, now)])
    else if choice.Cancelled? then s.(phase := DrainingChannel)
    else if s.active.Some? then
      if choice.FlushDone? then s.(active := None, answered := s.answered + 1) else s
    else if choice.Received? && s.channel != [] then
      s.(pending := s.pending + [s.channel[0]], channel := s.channel[1..])
    else s
  }

  /** One step of turning unstarted envelopes away: the channel until it is seen empty, then pending. */
  function DrainOnce(s: State): State {
    match s.phase
    case DrainingChannel =>
      if s.channel == [] then s.(phase := DrainingPending)
      else s.(channel := s.channel[1..], turnedAway := s.turnedAway + [s.channel[0]])
    case DrainingPending =>
      if s.pending == [] then s.(phase := Finishing)
      else s.(pending := s.pending[1..], turnedAway := s.turnedAway + [s.pending[0]])
    case _ => s
  }

  function Run(o: Options, s: State, steps: seq<Step>): State
    decreases |steps|
  {
    if steps == [] then s else Run(o, Next(o, s, steps[0]), steps[1..])
  }

  function Items(started: seq<Batch>): seq<Queued> {
    if started == [] then [] else Items(started[..|started| - 1]) + started[|started| - 1].items
  }

  // ---------------------------------------------------------------------------------------------
  // What every step keeps.

  /** A batch is started when it is full, or when its oldest envelope has waited the timeout. */
  ghost predicate BatchOk(o: Options, b: Batch) {
    && 1 <= |b.items| <= o.maxBatchSize
    && (|b.items| == o.maxBatchSize || b.items[0].enqueuedAt + o.timeout <= b.startedAt)
  }

  /** Every admitted envelope is in exactly one of four places. */
  ghost predicate Splits(
    admitted: seq<Queued>, started: seq<Queued>, pending: seq<Queued>, channel: seq<Queued>, turnedAway: seq<Queued>)
  {
    multiset(admitted) == multiset(started) + multiset(pending) + multiset(channel) + multiset(turnedAway)
  }

  ghost predicate Accounted(s: State) {
    Splits(s.admitted, Items(s.started), s.pending, s.channel, s.turnedAway)
  }

  /** While the runner loops, admission order is: started, then pending, then the channel. */
  ghost predicate InOrder(s: State) {
    && (forall i :: 0 <= i < |s.admitted| ==> s.admitted[i].id == i)
    && Items(s.started) <= s.admitted
    && (s.phase.Running? ==> s.admitted == Items(s.started) + s.pending + s.channel)
  }

  ghost predicate Bounded(o: Options, s: State) {
    && (forall i :: 0 <= i < |s.started| ==> BatchOk(o, s.started[i]))
    && |s.channel| <= o.maxQueueLength && |s.pending| <= o.maxBatchSize
    && (s.active.Some? ==>
          s.pending == [] && s.started != [] && s.active.value == s.started[|s.started| - 1].items)
    && s.answered + (if s.active.Some? then 1 else 0) == |s.started|
    && (s.phase.Finishing? || s.phase.Stopped? ==> s.pending == [])
    && (s.phase.Stopped? ==> s.channel == [] && s.active.None?)
  }

  ghost predicate StateOk(o: Options, s: State) {
    Accounted(s) && InOrder(s) && Bounded(o, s)
  }

  lemma ItemsSnoc(started: seq<Batch>, b: Batch)
    ensures Items(started + [b]) == Items(started) + b.items
  {
    assert (started + [b])[..|started|] == started;
  }

  lemma HeadCounts(q: seq<Queued>)
    requires q != []
    ensures multiset(q) == multiset{q[0]} + multiset(q[1..])
  {
    assert q == [q[0]] + q[1..];
  }

  /** A round that starts a batch takes everything pending. */
  lemma StartTakesAll(o: Options, s: State, now: int, choice: Choice)
    requires o.Valid() && Bounded(o, s) && s.active.None? && Ready(o, s.pending, now)
    ensures s.pending != [] && LoopOnce(o, s, now, choice)
      == s.(pending := [], active := Some(s.pending), started := s.started + [Batch(s.pending, now)])
  {
    assert s.pending[..|s.pending|] == s.pending;
  }

  /**
    With no batch active, a round starts one exactly when the batch is full or the oldest pending
    envelope has waited the timeout (which must be a moment the clock can reach).
   */
  lemma {:induction false} StartsExactlyWhenDue(o: Options, s: State, now: int, choice: Choice)
    requires o.Valid() && Bounded(o, s) && s.phase.Running? && s.active.None?
    ensures |Next(o, s, Iterate(now, choice)).started| > |s.started|
      <==> || |s.pending| == o.maxBatchSize
           || (s.pending != [] && s.pending[0].enqueuedAt + o.timeout <= Min(now, o.lastInstant))
  {
  }

  lemma SplitsAdmit(a: seq<Queued>, b: seq<Queued>, p: seq<Queued>, c: seq<Queued>, t: seq<Queued>, q: Queued)
    requires Splits(a, b, p, c, t)
    ensures Splits(a + [q], b, p, c + [q], t)
  {
  }

  lemma SplitsStart(a: seq<Queued>, b: seq<Queued>, p: seq<Queued>, c: seq<Queued>, t: seq<Queued>)
    requires Splits(a, b, p, c, t)
    ensures Splits(a, b + p, [], c, t)
  {
  }

  lemma SplitsReceive(a: seq<Queued>, b: seq<Queued>, p: seq<Queued>, c: seq<Queued>, t: seq<Queued>)
    requires Splits(a, b, p, c, t) && c != []
    ensures Splits(a, b, p + [c[0]], c[1..], t)
  {
    HeadCounts(c);
  }

  lemma SplitsTurnAway(a: seq<Queued>, b: seq<Queued>, p: seq<Queued>, c: seq<Queued>, t: seq<Queued>)
    requires Splits(a, b, p, c, t)
    ensures c != [] ==> Splits(a, b, p, c[1..], t + [c[0]])
    ensures p != [] ==> Splits(a, b, p[1..], c, t + [p[0]])
    ensures Splits(a, b, p, [], t + c)
  {
    if c != [] { HeadCounts(c); }
    if p != [] { HeadCounts(p); }
  }

  lemma RoundAccounts(o: Options, s: State, now: int, choice: Choice)
    requires o.Valid() && Bounded(o, s) && Accounted(s)
    ensures Accounted(LoopOnce(o, s, now, choice))
  {
    if s.active.None? {
      if Ready(o, s.pending, now) {
        StartTakesAll(o, s, now, choice);
        ItemsSnoc(s.started, Batch(s.pending, now));
        SplitsStart(s.admitted, Items(s.started), s.pending, s.channel, s.turnedAway);
      } else if s.channel != [] {
        SplitsReceive(s.admitted, Items(s.started), s.pending, s.channel, s.turnedAway);
      }
    }
  }

  lemma {:induction false} NextAccounts(o: Options, s: State, step: Step)
    requires o.Valid() && Bounded(o, s) && Accounted(s)
    ensures Accounted(Next(o, s, step))
  {
    if step.Send? {
      SplitsAdmit(s.admitted, Items(s.started), s.pending, s.channel, s.turnedAway, Queued(|s.admitted|, step.at));
    } else if step.Iterate? {
      RoundAccounts(o, s, step.now, step.choice);
    } else {
      SplitsTurnAway(s.admitted, Items(s.started), s.pending, s.channel, s.turnedAway);
    }
  }

  lemma OrderAdmit(a: seq<Queued>, b: seq<Queued>, p: seq<Queued>, c: seq<Queued>, q: Queued)
    requires a == b + p + c
    ensures a + [q] == b + p + (c + [q])
  {
  }

  lemma OrderReceive(a: seq<Queued>, b: seq<Queued>, p: seq<Queued>, c: seq<Queued>)
    requires a == b + p + c && c != []
    ensures a == b + (p + [c[0]]) + c[1..]
  {
  }

  lemma RoundKeepsOrder(o: Options, s: State, now: int, choice: Choice)
    requires o.Valid() && Bounded(o, s) && InOrder(s) && s.phase.Running?
    ensures InOrder(LoopOnce(o, s, now, choice))
  {
    if s.active.None? {
      if Ready(o, s.pending, now) {
        StartTakesAll(o, s, now, choice);
        ItemsSnoc(s.started, Batch(s.pending, now));
      } else if s.channel != [] {
        OrderReceive(s.admitted, Items(s.started), s.pending, s.channel);
      }
    }
  }

  lemma {:induction false} NextKeepsOrder(o: Options, s: State, step: Step)
    requires o.Valid() && Bounded(o, s) && InOrder(s)
    ensures InOrder(Next(o, s, step))
  {
    if s.phase.Running? {
      if step.Send? {
        OrderAdmit(s.admitted, Items(s.started), s.pending, s.channel, Queued(|s.admitted|, step.at));
      } else if step.Iterate? {
        RoundKeepsOrder(o, s, step.now, step.choice);
      }
    }
  }

  lemma {:induction false} NextKeepsBounds(o: Options, s: State, step: Step)
    requires o.Valid() && Bounded(o, s)
    ensures Bounded(o, Next(o, s, step))
  {
    if step.Iterate? && s.phase.Running? && s.active.None? && Ready(o, s.pending, step.now) {
      StartTakesAll(o, s, step.now, step.choice);
    }
  }

  /** Every step of every sender and of the runner keeps the invariant. */
  lemma {:induction false} NextKeepsState(o: Options, s: State, step: Step)
    requires o.Valid() && StateOk(o, s)
    ensures StateOk(o, Next(o, s, step))
  {
    NextAccounts(o, s, step);
    NextKeepsOrder(o, s, step);
    NextKeepsBounds(o, s, step);
  }

  /**
    In every run: started batches follow admission order without a gap, each has between one and
    the maximum number of envelopes and a reason to start, nothing is pending while one is active,
    and every admitted envelope is in exactly one place.
   */
  lemma {:induction false} RunKeepsState(o: Options, s: State, steps: seq<Step>)
    requires o.Valid() && StateOk(o, s)
    ensures StateOk(o, Run(o, s, steps))
    decreases |steps|
  {
    if steps != [] {
      NextKeepsState(o, s, steps[0]);
      RunKeepsState(o, Next(o, s, steps[0]), steps[1..]);
    }
  }

  // ---------------------------------------------------------------------------------------------
  // How long envelopes wait.

  /** The oldest unstarted envelope has waited the timeout, at a moment the clock can reach. */
  predicate Overdue(o: Options, s: State, now: int) {
    var waiting := s.pending + s.channel;
    waiting != [] && waiting[0].enqueuedAt + o.timeout <= Min(now, o.lastInstant)
  }

  /**
    The timeout is documented as the longest wait of the oldest queued envelope. A round starts an
    overdue one exactly when it is pending; it is left waiting if and only if it is still in the
    channel, which nobody reads while a batch is active.
   */
  lemma {:induction false} OverdueLeftExactlyWhen(o: Options, s: State, now: int, choice: Choice)
    requires o.Valid() && Bounded(o, s) && s.phase.Running? && Overdue(o, s, now)
    ensures Next(o, s, Iterate(now, choice)).started == s.started <==> s.pending == []
    ensures s.active.Some? ==> s.pending == [] && Next(o, s, Iterate(now, choice)).channel == s.channel
  {
    if s.pending != [] {
      assert (s.pending + s.channel)[0] == s.pending[0];
      StartTakesAll(o, s, now, choice);
    } else {
      assert s.pending + s.channel == s.channel;
    }
  }

  /** Once no batch is active, receiving it and one more round start it. */
  lemma {:induction false} OverdueStartsInTwoRounds(o: Options, s: State, now: int, later: int, choice: Choice)
    requires o.Valid() && Bounded(o, s) && s.phase.Running? && s.active.None? && s.pending == []
    requires Overdue(o, s, now) && now <= later
    ensures var received := Next(o, s, Iterate(now, Received));
      Next(o, received, Iterate(later, choice)).started == s.started + [Batch([s.channel[0]], later)]
  {
    assert s.pending + s.channel == s.channel;
    var received := Next(o, s, Iterate(now, Received));
    assert received.pending == [s.channel[0]];
    NextKeepsBounds(o, s, Iterate(now, Received));
    StartTakesAll(o, received, later, choice);
  }

  /** And when the active batch ends, one round more starts the overdue envelope behind it. */
  lemma {:induction false} OverdueStartsAfterFlush(o: Options, s: State, now: int, later: int, choice: Choice)
    requires o.Valid() && Bounded(o, s) && s.phase.Running? && s.active.Some?
    requires Overdue(o, s, now) && now <= later
    ensures var flushed := Next(o, s, Iterate(now, FlushDone));
      var received := Next(o, flushed, Iterate(now, Received));
      && flushed.answered == |s.started|
      && Next(o, received, Iterate(later, choice)).started == s.started + [Batch([s.channel[0]], later)]
  {
    NextKeepsBounds(o, s, Iterate(now, FlushDone));
    assert s.pending + s.channel == s.channel;
    OverdueStartsInTwoRounds(o, Next(o, s, Iterate(now, FlushDone)), now, later, choice);
  }

  /** One envelope is sent and its batch started when due; a second one is sent meanwhile. */
  function SecondSentDuringFlush(o: Options): seq<Step> {
    [Send(0), Iterate(0, Received), Iterate(o.timeout, Woken), Send(o.timeout)]
  }

  /** While that batch is active, the second envelope waits as long as the transport takes, whatever the timeout. */
  lemma {:induction false} WaitCanExceedTimeout(o: Options, wait: nat)
    requires o.Valid() && o.lastInstant >= o.timeout + wait && wait >= o.timeout
    ensures var s := Next(o, Run(o, INITIAL, SecondSentDuringFlush(o)), Iterate(o.timeout + wait, Woken));
      s.active.Some? && s.pending == [] && s.channel == [Queued(1, o.timeout)] && Overdue(o, s, o.timeout + wait)
  {
    var first, second := Queued(0, 0), Queued(1, o.timeout);
    var s1 := Next(o, INITIAL, Send(0));
    assert s1 == INITIAL.(channel := [first], admitted := [first]);
    var s2 := Next(o, s1, Iterate(0, Received));
    assert s2 == s1.(channel := [], pending := [first]);
    var s3 := Next(o, s2, Iterate(o.timeout, Woken));
    assert s2.pending[..1] == [first] && s2.pending[1..] == [];
    assert s3 == s2.(pending := [], active := Some([first]), started := [Batch([first], o.timeout)]);
    var s4 := Next(o, s3, Send(o.timeout));
    assert s4.channel == [second];
    RunOfFour(o, INITIAL, SecondSentDuringFlush(o));
    assert s4.pending + s4.channel == [second];
  }

  lemma RunOfFour(o: Options, s: State, steps: seq<Step>)
    requires |steps| == 4
    ensures Run(o, s, steps) == Next(o, Next(o, Next(o, Next(o, s, steps[0]), steps[1]), steps[2]), steps[3])
  {
    var s1 := Next(o, s, steps[0]);
    var s2 := Next(o, s1, steps[1]);
    var s3 := Next(o, s2, steps[2]);
    assert steps[1..][1..] == steps[2..] && steps[2..][1..] == steps[3..] && steps[3..][1..] == [];
    assert Run(o, s, steps) == Run(o, s1, steps[1..]) && Run(o, s1, steps[1..]) == Run(o, s2, steps[2..]);
    assert Run(o, s2, steps[2..]) == Run(o, s3, steps[3..]);
    assert Run(o, s3, steps[3..]) == Run(o, Next(o, s3, steps[3]), []);
  }

  // ---------------------------------------------------------------------------------------------
  // How many envelopes wait.

  /** Admitted envelopes that no batch has taken and nobody has turned away. */
  function Unstarted(s: State): nat {
    |s.channel| + |s.pending|
  }

  /** In every run at most a full channel and a full batch wait. */
  lemma {:induction false} UnstartedBound(o: Options, steps: seq<Step>)
    requires o.Valid()
    ensures Unstarted(Run(o, INITIAL, steps)) <= o.maxQueueLength + o.maxBatchSize
  {
    assert Items([]) == [];
    RunKeepsState(o, INITIAL, steps);
  }

  /**
    The option is documented as the most unstarted envelopes, but admission looks at the channel
    alone. From a state within that limit, a step exceeds it exactly when it is a send that finds
    something pending, a channel with room, and the limit used up.
   */
  lemma {:induction false} QueueLimitExceededExactlyWhen(o: Options, s: State, step: Step)
    requires o.Valid() && StateOk(o, s) && Unstarted(s) <= o.maxQueueLength
    ensures Unstarted(Next(o, s, step)) > o.maxQueueLength
      <==> step.Send? && !s.phase.Stopped? && s.pending != [] && Unstarted(s) == o.maxQueueLength
  {
  }

  /** Sends and receives one envelope `n` times, then sends `more`. */
  function FillSteps(n: nat, more: nat): seq<Step> {
    if n > 0 then [Send(0), Iterate(0, Received)] + FillSteps(n - 1, more)
    else if more > 0 then [Send(0)] + FillSteps(0, more - 1)
    else []
  }

  ghost predicate Filling(o: Options, s: State) {
    s.phase.Running? && s.active.None? && forall i :: 0 <= i < |s.pending| ==> s.pending[i].enqueuedAt == 0
  }

  lemma {:induction false} FillChannel(o: Options, s: State, more: nat)
    requires Filling(o, s) && |s.channel| + more <= o.maxQueueLength
    ensures Unstarted(Run(o, s, FillSteps(0, more))) == Unstarted(s) + more
    decreases more
  {
    if more > 0 {
      assert FillSteps(0, more)[1..] == FillSteps(0, more - 1);
      FillChannel(o, Next(o, s, Send(0)), more - 1);
    }
  }

  lemma {:induction false} FillPending(o: Options, s: State, n: nat, more: nat)
    requires o.Valid() && o.lastInstant >= 0 && Filling(o, s) && s.channel == []
    requires |s.pending| + n <= o.maxBatchSize && more <= o.maxQueueLength
    ensures Unstarted(Run(o, s, FillSteps(n, more))) == |s.pending| + n + more
    decreases n
  {
    if n > 0 {
      var sent := Next(o, s, Send(0));
      var received := Next(o, sent, Iterate(0, Received));
      assert !Ready(o, s.pending, 0);
      assert received.pending == s.pending + [sent.channel[0]] && received.channel == [];
      assert FillSteps(n, more)[1..][1..] == FillSteps(n - 1, more);
      assert Run(o, s, FillSteps(n, more)) == Run(o, received, FillSteps(n - 1, more));
      FillPending(o, received, n - 1, more);
    } else {
      FillChannel(o, s, more);
    }
  }

  /** The bound is reached for every choice of options, so the documented limit fails for every choice. */
  lemma {:induction false} UnstartedBoundIsReached(o: Options)
    requires o.Valid() && o.lastInstant >= 0
    ensures Unstarted(Run(o, INITIAL, FillSteps(o.maxBatchSize, o.maxQueueLength)))
         == o.maxQueueLength + o.maxBatchSize > o.maxQueueLength
  {
    FillPending(o, INITIAL, o.maxBatchSize, o.maxQueueLength);
  }

  // ---------------------------------------------------------------------------------------------
  // How the runner ends.

  function Drains(n: nat): seq<Step> {
    if n == 0 then [] else [Drain] + Drains(n - 1)
  }

  lemma {:induction false} PendingDrains(o: Options, s: State)
    requires s.phase.DrainingPending?
    ensures Run(o, s, Drains(|s.pending| + 1))
         == s.(pending := [], phase := Finishing, turnedAway := s.turnedAway + s.pending)
    decreases |s.pending|
  {
    var n, s' := |s.pending|, Next(o, s, Drain);
    assert Drains(n + 1)[1..] == Drains(n);
    if n == 0 {
      assert s.turnedAway + s.pending == s.turnedAway;
      assert Run(o, s', Drains(0)) == s';
    } else {
      PendingDrains(o, s');
      assert s'.turnedAway + s'.pending == s.turnedAway + s.pending;
    }
  }

  lemma {:induction false} ChannelDrains(o: Options, s: State)
    requires s.phase.DrainingChannel?
    ensures Run(o, s, Drains(|s.channel| + |s.pending| + 2))
         == s.(channel := [], pending := [], phase := Finishing, turnedAway := s.turnedAway + s.channel + s.pending)
    decreases |s.channel|
  {
    var n, s' := |s.channel| + |s.pending|, Next(o, s, Drain);
    assert Drains(n + 2)[1..] == Drains(n + 1);
    if s.channel == [] {
      PendingDrains(o, s');
      assert s.turnedAway + s.channel == s.turnedAway;
    } else {
      ChannelDrains(o, s');
      assert s'.turnedAway + s'.channel == s.turnedAway + s.channel;
    }
  }

  /**
    Cancelling a runner that has no batch to start stops it: as many drains as envelopes wait, and
    two more, then two finishing steps. The channel and then the pending envelopes are turned away
    in order, nothing more is started, and every started batch is answered.
   */
  lemma {:induction false} CancelStops(o: Options, s: State, now: int)
    requires o.Valid() && Bounded(o, s) && s.phase.Running? && (s.active.None? ==> !Ready(o, s.pending, now))
    ensures var drained := Run(o, Next(o, s, Iterate(now, Cancelled)), Drains(Unstarted(s) + 2));
      var stopped := Next(o, Next(o, drained, Finish), Finish);
      && stopped.phase.Stopped? && stopped.channel == [] && stopped.pending == [] && stopped.active.None?
      && stopped.turnedAway == s.turnedAway + s.channel + s.pending
      && stopped.started == s.started && stopped.answered == |s.started| && stopped.admitted == s.admitted
  {
    var cancelled := Next(o, s, Iterate(now, Cancelled));
    ChannelDrains(o, cancelled);
    var drained := Run(o, cancelled, Drains(Unstarted(s) + 2));
    assert drained.turnedAway + [] == drained.turnedAway;
  }

  /**
    When the runner has stopped, every batch has been answered and each admitted envelope was
    either in exactly one started batch or turned away exactly once, never both.
   */
  lemma {:induction false} StoppedAccountsForAll(o: Options, steps: seq<Step>, i: nat)
    requires o.Valid() && Run(o, INITIAL, steps).phase.Stopped?
    requires i < |Run(o, INITIAL, steps).admitted|
    ensures var s := Run(o, INITIAL, steps);
      && s.answered == |s.started|
      && multiset(Items(s.started))[s.admitted[i]] + multiset(s.turnedAway)[s.admitted[i]] == 1
  {
    var s := Run(o, INITIAL, steps);
    assert Items([]) == [];
    RunKeepsState(o, INITIAL, steps);
    CountsOnce(s.admitted, i);
  }

  lemma {:induction false} CountsOnce(admitted: seq<Queued>, i: nat)
    requires i < |admitted| && forall k :: 0 <= k < |admitted| ==> admitted[k].id == k
    ensures multiset(admitted)[admitted[i]] == 1
    decreases |admitted|
  {
    var n := |admitted| - 1;
    var front := admitted[..n];
    assert admitted == front + [admitted[n]];
    if i < n {
      CountsOnce(front, i);
      assert admitted[n] != admitted[i];
    } else {
      assert admitted[n] !in front;
    }
  }
}
